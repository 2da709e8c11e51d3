/**
 * The crossover detector of app.py (`check_ema_crossover`): the fast and slow
 * EMAs over the trailing `slow + 5` prices are compared with the same pair one
 * candle earlier, and a bullish or bearish crossover is reported when the fast
 * EMA moves from one side of the slow EMA to strictly the other side.
 * The source fixes the periods at 9 and 15; here they are parameters with
 * 0 < fast < slow, and FastPeriod / SlowPeriod give the source's values.
 */
module Crossover {
  import opened Wrappers
  import opened EmaCalculator

  const FastPeriod: nat := 9
  const SlowPeriod: nat := 15

  /** The stability margin: the detector needs `slow + Margin` prices. */
  const Margin: nat := 5

  datatype Direction = Bullish | Bearish

  /** What the detector returns: the crossover (if any) and the current fast and slow EMAs. */
  datatype Signal = Signal(crossover: Option<Direction>, fastEma: Option<real>, slowEma: Option<real>)

  function Min(a: int, b: int): int
  {
    if a <= b then a else b
  }

  /** Python's normalisation of a slice bound `i` on a list of length `n`: negative bounds count from the end, and both are clamped to [0, n]. */
  function PyIndex(i: int, n: nat): (j: nat)
    ensures j <= n
  {
    if i < 0 then (if i + n < 0 then 0 else i + n)
    else if i > n then n
    else i
  }

  /** Python's `s[lo:hi]`. */
  function PySlice<T>(s: seq<T>, lo: int, hi: int): seq<T>
  {
    var a, b := PyIndex(lo, |s|), PyIndex(hi, |s|);
    if a <= b then s[a..b] else []
  }

  /** The comparison of the previous pair of EMAs with the current pair. */
  function Classify(prevFast: real, prevSlow: real, currFast: real, currSlow: real): Option<Direction>
  {
    if prevFast <= prevSlow && currFast > currSlow then Some(Bullish)
    else if prevFast >= prevSlow && currFast < currSlow then Some(Bearish)
    else None
  }

  /** `check_ema_crossover`, with every guard of the source kept. */
  function CheckCrossover(prices: seq<real>, fast: nat, slow: nat): Signal
    requires 0 < fast < slow
  {
    if |prices| < slow + Margin then Signal(None, None, None)
    else
      var recent := PySlice(prices, -(slow + Margin), |prices|);
      var fastNow, slowNow := Ema(recent, fast), Ema(recent, slow);
      if fastNow.None? || slowNow.None? then Signal(None, fastNow, slowNow)
      else
        var previous := PySlice(prices, -(slow + Margin + 1), -1);
        var fastPrev := if |previous| < slow then None else Ema(previous, fast);
        var slowPrev := if |previous| < slow then None else Ema(previous, slow);
        var crossover :=
          if fastPrev.Some? && slowPrev.Some?
          then Classify(fastPrev.value, slowPrev.value, fastNow.value, slowNow.value)
          else None;
        Signal(crossover, fastNow, slowNow)
  }

  // ---------------------------------------------------------------------------
  // A reference formulation in plain Dafny slices, with no guards

  /** The last `slow + Margin` prices. */
  function CurrentWindow(prices: seq<real>, slow: nat): (w: seq<real>)
    requires |prices| >= slow + Margin
  {
    prices[|prices| - (slow + Margin)..]
  }

  /** The window one candle back: up to `slow + Margin` prices ending just before the newest. */
  function PreviousWindow(prices: seq<real>, slow: nat): (w: seq<real>)
    requires |prices| >= slow + Margin
  {
    prices[|prices| - Min(|prices|, slow + Margin + 1)..|prices| - 1]
  }

  /** The current (fast, slow) EMAs. */
  function CurrentEmas(prices: seq<real>, fast: nat, slow: nat): (real, real)
    requires 0 < fast < slow && |prices| >= slow + Margin
  {
    (Ema(CurrentWindow(prices, slow), fast).value, Ema(CurrentWindow(prices, slow), slow).value)
  }

  /** The previous (fast, slow) EMAs. */
  function PreviousEmas(prices: seq<real>, fast: nat, slow: nat): (real, real)
    requires 0 < fast < slow && |prices| >= slow + Margin
  {
    (Ema(PreviousWindow(prices, slow), fast).value, Ema(PreviousWindow(prices, slow), slow).value)
  }

  // ---------------------------------------------------------------------------
  // Properties

  /** Fewer than `slow + Margin` prices: no crossover and both EMAs undefined. */
  lemma InsufficientData(prices: seq<real>, fast: nat, slow: nat)
    requires 0 < fast < slow && |prices| < slow + Margin
    ensures CheckCrossover(prices, fast, slow) == Signal(None, None, None)
  {
  }

  /** The source's negative slices select exactly the reference windows; the previous window has min(n, slow + 6) - 1 >= slow prices. */
  lemma WindowsAreTrailingSlices(prices: seq<real>, slow: nat)
    requires |prices| >= slow + Margin
    ensures PySlice(prices, -(slow + Margin), |prices|) == CurrentWindow(prices, slow)
    ensures |CurrentWindow(prices, slow)| == slow + Margin
    ensures PySlice(prices, -(slow + Margin + 1), -1) == PreviousWindow(prices, slow)
    ensures |PreviousWindow(prices, slow)| == Min(|prices|, slow + Margin + 1) - 1 >= slow
  {
    var n := |prices|;
    assert PyIndex(-(slow + Margin), n) == n - (slow + Margin);
    assert PyIndex(n, n) == n;
    assert PyIndex(-(slow + Margin + 1), n) == n - Min(n, slow + Margin + 1);
    assert PyIndex(-1, n) == n - 1;
  }

  /** With enough prices all four EMAs are defined, so the guarded early returns never fire, and the detector is the reference classification. */
  lemma AllEmasDefined(prices: seq<real>, fast: nat, slow: nat)
    requires 0 < fast < slow && |prices| >= slow + Margin
    ensures Ema(CurrentWindow(prices, slow), fast).Some? && Ema(CurrentWindow(prices, slow), slow).Some?
    ensures Ema(PreviousWindow(prices, slow), fast).Some? && Ema(PreviousWindow(prices, slow), slow).Some?
    ensures var (fastNow, slowNow) := CurrentEmas(prices, fast, slow);
            var (fastPrev, slowPrev) := PreviousEmas(prices, fast, slow);
            CheckCrossover(prices, fast, slow)
            == Signal(Classify(fastPrev, slowPrev, fastNow, slowNow), Some(fastNow), Some(slowNow))
  {
    WindowsAreTrailingSlices(prices, slow);
  }

  /** With enough prices the crossover is the classification of the previous and current EMA pairs. */
  lemma ClassifiedByEmas(prices: seq<real>, fast: nat, slow: nat)
    requires 0 < fast < slow && |prices| >= slow + Margin
    ensures CheckCrossover(prices, fast, slow).crossover
         == Classify(PreviousEmas(prices, fast, slow).0, PreviousEmas(prices, fast, slow).1,
                     CurrentEmas(prices, fast, slow).0, CurrentEmas(prices, fast, slow).1)
  {
    AllEmasDefined(prices, fast, slow);
  }

  /** The second and third components are the current EMAs whatever the classification, defined exactly when there are enough prices; a crossover is only reported with both defined. */
  lemma ReturnsCurrentEmas(prices: seq<real>, fast: nat, slow: nat)
    requires 0 < fast < slow
    ensures var r := CheckCrossover(prices, fast, slow);
            && (r.fastEma.Some? <==> |prices| >= slow + Margin)
            && (r.slowEma.Some? <==> |prices| >= slow + Margin)
            && (r.crossover.Some? ==> r.fastEma.Some? && r.slowEma.Some?)
            && (|prices| >= slow + Margin ==>
                  (r.fastEma.value, r.slowEma.value) == CurrentEmas(prices, fast, slow))
  {
    if |prices| >= slow + Margin {
      AllEmasDefined(prices, fast, slow);
    }
  }

  /** Bullish exactly when the previous fast EMA was at or below the previous slow EMA and the current fast EMA is strictly above the current slow one. */
  lemma BullishIff(prices: seq<real>, fast: nat, slow: nat)
    requires 0 < fast < slow
    ensures CheckCrossover(prices, fast, slow).crossover == Some(Bullish)
        <==> |prices| >= slow + Margin
             && PreviousEmas(prices, fast, slow).0 <= PreviousEmas(prices, fast, slow).1
             && CurrentEmas(prices, fast, slow).0 > CurrentEmas(prices, fast, slow).1
  {
    if |prices| >= slow + Margin {
      AllEmasDefined(prices, fast, slow);
    }
  }

  /** Bearish exactly when the previous fast EMA was at or above the previous slow EMA and the current fast EMA is strictly below the current slow one. */
  lemma BearishIff(prices: seq<real>, fast: nat, slow: nat)
    requires 0 < fast < slow
    ensures CheckCrossover(prices, fast, slow).crossover == Some(Bearish)
        <==> |prices| >= slow + Margin
             && PreviousEmas(prices, fast, slow).0 >= PreviousEmas(prices, fast, slow).1
             && CurrentEmas(prices, fast, slow).0 < CurrentEmas(prices, fast, slow).1
  {
    if |prices| >= slow + Margin {
      AllEmasDefined(prices, fast, slow);
    }
  }

  /** Equal current EMAs never produce a crossover, and a reported crossover has the current fast EMA strictly on its side. */
  lemma CurrentTieNeverCrosses(prices: seq<real>, fast: nat, slow: nat)
    requires 0 < fast < slow
    ensures var r := CheckCrossover(prices, fast, slow);
            && (r.crossover == Some(Bullish) ==> r.fastEma.value > r.slowEma.value)
            && (r.crossover == Some(Bearish) ==> r.fastEma.value < r.slowEma.value)
            && (r.fastEma.Some? && r.fastEma == r.slowEma ==> r.crossover == None)
  {
    if |prices| >= slow + Margin {
      AllEmasDefined(prices, fast, slow);
    }
  }

  /** Prepending any prices to a series of at least `slow + Margin + 1` prices leaves the result unchanged. */
  lemma PrependUnchanged(older: seq<real>, prices: seq<real>, fast: nat, slow: nat)
    requires 0 < fast < slow && |prices| >= slow + Margin + 1
    ensures CheckCrossover(older + prices, fast, slow) == CheckCrossover(prices, fast, slow)
  {
    var all := older + prices;
    assert CurrentWindow(all, slow) == CurrentWindow(prices, slow);
    assert PreviousWindow(all, slow) == PreviousWindow(prices, slow);
    AllEmasDefined(all, fast, slow);
    AllEmasDefined(prices, fast, slow);
  }

  /** The result depends only on the last `slow + Margin + 1` prices. */
  lemma DependsOnlyOnTail(prices: seq<real>, fast: nat, slow: nat)
    requires 0 < fast < slow && |prices| >= slow + Margin + 1
    ensures CheckCrossover(prices, fast, slow)
         == CheckCrossover(prices[|prices| - (slow + Margin + 1)..], fast, slow)
  {
    var cut := |prices| - (slow + Margin + 1);
    assert prices == prices[..cut] + prices[cut..];
    PrependUnchanged(prices[..cut], prices[cut..], fast, slow);
  }

  /** One candle later, the previous window is the window that was current: the lagged pair is the old current pair. */
  lemma PreviousIsLastCurrent(prices: seq<real>, close: real, fast: nat, slow: nat)
    requires 0 < fast < slow && |prices| >= slow + Margin
    ensures PreviousEmas(prices + [close], fast, slow) == CurrentEmas(prices, fast, slow)
  {
    assert PreviousWindow(prices + [close], slow) == CurrentWindow(prices, slow);
  }

  /** A crossover is never reported twice in a row: after a bullish (bearish) result, appending one close cannot give bullish (bearish) again. */
  lemma NoRepeatedCrossover(prices: seq<real>, close: real, fast: nat, slow: nat)
    requires 0 < fast < slow
    requires CheckCrossover(prices, fast, slow).crossover.Some?
    ensures CheckCrossover(prices + [close], fast, slow).crossover != CheckCrossover(prices, fast, slow).crossover
  {
    ClassifiedByEmas(prices, fast, slow);
    ClassifiedByEmas(prices + [close], fast, slow);
    PreviousIsLastCurrent(prices, close, fast, slow);
    var (fastPrev, slowPrev) := PreviousEmas(prices, fast, slow);
    var (fastNow, slowNow) := CurrentEmas(prices, fast, slow);
    var (fastNext, slowNext) := CurrentEmas(prices + [close], fast, slow);
    ClassifyNeverRepeats(fastPrev, slowPrev, fastNow, slowNow, fastNext, slowNext);
  }

  /** Once the current pair has crossed, using it as the next previous pair cannot classify the same way. */
  lemma ClassifyNeverRepeats(fastPrev: real, slowPrev: real, fastNow: real, slowNow: real, fastNext: real, slowNext: real)
    requires Classify(fastPrev, slowPrev, fastNow, slowNow).Some?
    ensures Classify(fastNow, slowNow, fastNext, slowNext) != Classify(fastPrev, slowPrev, fastNow, slowNow)
  {
  }

  /** A constant series never crosses, and its current EMAs are the constant. */
  lemma ConstantSeriesNoCrossover(prices: seq<real>, fast: nat, slow: nat, v: real)
    requires 0 < fast < slow
    requires forall i :: 0 <= i < |prices| ==> prices[i] == v
    ensures CheckCrossover(prices, fast, slow)
         == if |prices| < slow + Margin then Signal(None, None, None) else Signal(None, Some(v), Some(v))
  {
    if |prices| >= slow + Margin {
      AllEmasDefined(prices, fast, slow);
      var current, previous := CurrentWindow(prices, slow), PreviousWindow(prices, slow);
      EmaOfConstant(current, fast, v);
      EmaOfConstant(current, slow, v);
      EmaOfConstant(previous, fast, v);
      EmaOfConstant(previous, slow, v);
    }
  }

  /** Twenty candles all closing at 100 with the source's periods: EMA(9) = EMA(15) = 100 and no crossover. */
  lemma FlatHundredScenario()
    ensures CheckCrossover(Flat(20, 100.0), FastPeriod, SlowPeriod)
         == Signal(None, Some(100.0), Some(100.0))
  {
    FlatIsConstant(20, 100.0);
    ConstantSeriesNoCrossover(Flat(20, 100.0), FastPeriod, SlowPeriod, 100.0);
  }

  /** Folding one new price w into a constant series of value v moves its EMA to v + (w - v) * k. */
  lemma EmaAfterStep(flat: seq<real>, period: nat, v: real, w: real, k: real)
    requires period > 0 && |flat| >= period && k == Multiplier(period)
    requires forall i :: 0 <= i < |flat| ==> flat[i] == v
    ensures Ema(flat + [w], period) == Some(v + (w - v) * k)
  {
    EmaOfConstant(flat, period, v);
    EmaAppend(flat, period, w);
    assert Step(v, w, k) == v + (w - v) * k;
  }

  /** n closes, all at v. */
  function Flat(n: nat, v: real): (s: seq<real>)
    ensures |s| == n
  {
    if n == 0 then [] else Flat(n - 1, v) + [v]
  }

  lemma {:induction false} FlatIsConstant(n: nat, v: real)
    ensures forall i :: 0 <= i < n ==> Flat(n, v)[i] == v
  {
    if n > 0 {
      FlatIsConstant(n - 1, v);
    }
  }

  /** Dropping i closes from a flat run leaves a shorter flat run. */
  lemma FlatSuffix(n: nat, v: real, i: nat)
    requires i <= n
    ensures Flat(n, v)[i..] == Flat(n - i, v)
  {
    FlatIsConstant(n, v);
    FlatIsConstant(n - i, v);
    assert forall j :: 0 <= j < n - i ==> Flat(n, v)[i..][j] == Flat(n - i, v)[j];
  }

  /** The windows of a flat run of n closes at v followed by one close w: the current one is a flat run then w, the previous one a flat run. */
  lemma StepChangeWindows(n: nat, v: real, w: real)
    requires n >= SlowPeriod + Margin - 1
    ensures CurrentWindow(Flat(n, v) + [w], SlowPeriod) == Flat(SlowPeriod + Margin - 1, v) + [w]
    ensures PreviousWindow(Flat(n, v) + [w], SlowPeriod) == Flat(Min(n + 1, SlowPeriod + Margin + 1) - 1, v)
  {
    var prices := Flat(n, v) + [w];
    var m := Min(n + 1, SlowPeriod + Margin + 1) - 1;
    FlatSuffix(n, v, n - (SlowPeriod + Margin - 1));
    FlatSuffix(n, v, n - m);
    assert CurrentWindow(prices, SlowPeriod) == Flat(n, v)[n - (SlowPeriod + Margin - 1)..] + [w];
    assert PreviousWindow(prices, SlowPeriod) == Flat(n, v)[n - m..];
  }

  /** A flat run of 19 closes at v followed by w: the fast EMA over it moves 2/10 of the way from v to w. */
  lemma FastEmaAfterStep(v: real, w: real)
    ensures Ema(Flat(SlowPeriod + Margin - 1, v) + [w], FastPeriod) == Some(v + (w - v) * 0.2)
  {
    var run := Flat(SlowPeriod + Margin - 1, v);
    FlatIsConstant(SlowPeriod + Margin - 1, v);
    assert 0.2 == Multiplier(FastPeriod);
    EmaAfterStep(run, FastPeriod, v, w, 0.2);
  }

  /** A flat run of 19 closes at v followed by w: the slow EMA over it moves 2/16 of the way from v to w. */
  lemma SlowEmaAfterStep(v: real, w: real)
    ensures Ema(Flat(SlowPeriod + Margin - 1, v) + [w], SlowPeriod) == Some(v + (w - v) * 0.125)
  {
    var run := Flat(SlowPeriod + Margin - 1, v);
    FlatIsConstant(SlowPeriod + Margin - 1, v);
    assert 0.125 == Multiplier(SlowPeriod);
    EmaAfterStep(run, SlowPeriod, v, w, 0.125);
  }

  /** The source's periods after a flat run of n closes at v and one close w: the previous EMAs tie at v, the current ones move by 2/10 and by 2/16 of the step. */
  lemma StepChangeEmas(n: nat, v: real, w: real)
    requires n >= SlowPeriod + Margin - 1
    ensures PreviousEmas(Flat(n, v) + [w], FastPeriod, SlowPeriod) == (v, v)
    ensures CurrentEmas(Flat(n, v) + [w], FastPeriod, SlowPeriod) == (v + (w - v) * 0.2, v + (w - v) * 0.125)
  {
    var m := Min(n + 1, SlowPeriod + Margin + 1) - 1;
    StepChangeWindows(n, v, w);
    FlatIsConstant(m, v);
    EmaOfConstant(Flat(m, v), FastPeriod, v);
    EmaOfConstant(Flat(m, v), SlowPeriod, v);
    FastEmaAfterStep(v, w);
    SlowEmaAfterStep(v, w);
  }

  /** With the source's periods, after a flat run of n closes at v, one close w above v is a bullish crossover, below v a bearish one, and equal to v none. */
  lemma StepChangeCrosses(n: nat, v: real, w: real)
    requires n >= SlowPeriod + Margin - 1
    ensures CheckCrossover(Flat(n, v) + [w], FastPeriod, SlowPeriod).crossover
         == if w > v then Some(Bullish) else if w < v then Some(Bearish) else None
  {
    StepChangeEmas(n, v, w);
    ClassifiedByEmas(Flat(n, v) + [w], FastPeriod, SlowPeriod);
  }
}
