/**
 * The EMA calculator of app.py (`calculate_ema`): seed the average with the
 * simple mean of the first `period` prices, then fold every later price into it,
 * oldest to newest, with the smoothing factor 2 / (period + 1).
 * Prices are exact reals; the source's floating-point rounding is not modelled.
 */
module EmaCalculator {
  import opened Wrappers

  /** Python's `sum` over a list of prices, accumulated left to right. */
  function Sum(s: seq<real>): real
  {
    if |s| == 0 then 0.0 else Sum(s[..|s| - 1]) + s[|s| - 1]
  }

  /** The simple moving average that seeds the EMA. */
  function Mean(s: seq<real>): real
    requires |s| > 0
  {
    Sum(s) / |s| as real
  }

  /** The smoothing factor `2 / (period + 1)`; it lies in (0, 1] for every positive period. */
  function Multiplier(period: nat): (k: real)
    requires period > 0
    ensures 0.0 < k <= 1.0
  {
    2.0 / (period + 1) as real
  }

  /** One update of the running average by a new price. */
  function Step(ema: real, price: real, k: real): real
  {
    (price - ema) * k + ema
  }

  /** The running average after folding `prices`, oldest first, into `seed`. */
  function Fold(seed: real, prices: seq<real>, k: real): real
  {
    if |prices| == 0 then seed
    else Step(Fold(seed, prices[..|prices| - 1], k), prices[|prices| - 1], k)
  }

  /** The EMA of `prices` with the given period, or None while there are fewer prices than the period. */
  function Ema(prices: seq<real>, period: nat): (r: Option<real>)
    requires period > 0
    ensures r.None? <==> |prices| < period
  {
    if |prices| < period then None
    else Some(Fold(Mean(prices[..period]), prices[period..], Multiplier(period)))
  }

  /** `calculate_ema`: the loop over `prices[period:]` updates the accumulator in place. */
  method CalculateEma(prices: seq<real>, period: nat) returns (r: Option<real>)
    requires period > 0
    ensures r.None? <==> |prices| < period
    ensures r == Ema(prices, period)
  {
    if |prices| < period {
      return None;
    }
    var multiplier := 2.0 / (period + 1) as real;
    var ema := Sum(prices[..period]) / period as real;
    ghost var seed, rest := ema, prices[period..];
    var i := period;
    while i < |prices|
      invariant period <= i <= |prices|
      invariant ema == Fold(seed, rest[..i - period], multiplier)
    {
      FoldExtend(seed, rest, i - period, multiplier);
      ema := (prices[i] - ema) * multiplier + ema;
      i := i + 1;
    }
    assert rest[..i - period] == rest;
    return Some(ema);
  }

  /** Folding one more price of `s` is one more step. */
  lemma FoldExtend(seed: real, s: seq<real>, j: nat, k: real)
    requires j < |s|
    ensures Fold(seed, s[..j + 1], k) == Step(Fold(seed, s[..j], k), s[j], k)
  {
    assert s[..j + 1][..j] == s[..j];
  }

  lemma {:induction false} SumConstant(s: seq<real>, v: real)
    requires forall i :: 0 <= i < |s| ==> s[i] == v
    ensures Sum(s) == |s| as real * v
  {
    if |s| > 0 {
      SumConstant(s[..|s| - 1], v);
    }
  }

  lemma {:induction false} SumBounds(s: seq<real>, lo: real, hi: real)
    requires forall i :: 0 <= i < |s| ==> lo <= s[i] <= hi
    ensures |s| as real * lo <= Sum(s) <= |s| as real * hi
  {
    if |s| > 0 {
      SumBounds(s[..|s| - 1], lo, hi);
    }
  }

  /** The seed lies between any lower and upper bound of the prices it averages. */
  lemma MeanBounds(s: seq<real>, lo: real, hi: real)
    requires |s| > 0
    requires forall i :: 0 <= i < |s| ==> lo <= s[i] <= hi
    ensures lo <= Mean(s) <= hi
  {
    SumBounds(s, lo, hi);
    var n := |s| as real;
    assert Mean(s) * n == Sum(s);
  }

  /** A step with factor in (0, 1] moves the average towards the price without overshooting it. */
  lemma StepBounded(ema: real, price: real, k: real, lo: real, hi: real)
    requires lo <= ema <= hi && lo <= price <= hi
    requires 0.0 < k <= 1.0
    ensures lo <= Step(ema, price, k) <= hi
  {
    var d := price - ema;
    assert Step(ema, price, k) == ema + d * k;
    assert d - d * k == d * (1.0 - k);
    if d >= 0.0 {
      assert 0.0 <= d * k;
      assert 0.0 <= d * (1.0 - k);
    } else {
      assert d * k <= 0.0;
      assert d * (1.0 - k) <= 0.0;
    }
  }

  lemma {:induction false} FoldBounded(seed: real, prices: seq<real>, k: real, lo: real, hi: real)
    requires lo <= seed <= hi
    requires forall i :: 0 <= i < |prices| ==> lo <= prices[i] <= hi
    requires 0.0 < k <= 1.0
    ensures lo <= Fold(seed, prices, k) <= hi
  {
    if |prices| > 0 {
      FoldBounded(seed, prices[..|prices| - 1], k, lo, hi);
      StepBounded(Fold(seed, prices[..|prices| - 1], k), prices[|prices| - 1], k, lo, hi);
    }
  }

  lemma {:induction false} FoldConstant(prices: seq<real>, v: real, k: real)
    requires forall i :: 0 <= i < |prices| ==> prices[i] == v
    ensures Fold(v, prices, k) == v
  {
    if |prices| > 0 {
      FoldConstant(prices[..|prices| - 1], v, k);
    }
  }

  /** With exactly `period` prices nothing is folded: the EMA is their simple mean. */
  lemma EmaOfExactPeriod(prices: seq<real>, period: nat)
    requires period > 0 && |prices| == period
    ensures Ema(prices, period) == Some(Mean(prices))
  {
    assert prices[..period] == prices;
    assert prices[period..] == [];
  }

  /** A constant series of value v has EMA v (once it is long enough). */
  lemma EmaOfConstant(prices: seq<real>, period: nat, v: real)
    requires period > 0 && |prices| >= period
    requires forall i :: 0 <= i < |prices| ==> prices[i] == v
    ensures Ema(prices, period) == Some(v)
  {
    var seed := prices[..period];
    SumConstant(seed, v);
    assert Mean(seed) == v;
    FoldConstant(prices[period..], v, Multiplier(period));
  }

  /** The EMA never leaves the range of the prices: any bounds on every price bound the EMA. */
  lemma EmaBounded(prices: seq<real>, period: nat, lo: real, hi: real)
    requires period > 0 && |prices| >= period
    requires forall i :: 0 <= i < |prices| ==> lo <= prices[i] <= hi
    ensures lo <= Ema(prices, period).value <= hi
  {
    MeanBounds(prices[..period], lo, hi);
    FoldBounded(Mean(prices[..period]), prices[period..], Multiplier(period), lo, hi);
  }

  /** Appending one price to a long-enough series updates its EMA by one step: the incremental form. */
  lemma EmaAppend(prices: seq<real>, period: nat, price: real)
    requires period > 0 && |prices| >= period
    ensures Ema(prices + [price], period)
         == Some(Step(Ema(prices, period).value, price, Multiplier(period)))
  {
    var extended := prices + [price];
    assert extended[..period] == prices[..period];
    assert extended[period..][..|extended[period..]| - 1] == prices[period..];
  }
}
