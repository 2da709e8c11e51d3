/**
 * The per-symbol alert gate in the polling loop of app.py (`main`): a crossover
 * is sent as an alert only if the symbol has no recorded alert or the last one
 * is more than `sleep_seconds` old, and sending records the current time for
 * that symbol. Time is whole seconds; the clock reading `now` is a parameter,
 * fixed for one polling cycle.
 */
module Throttle {
  import opened Wrappers
  import opened Crossover

  /** The time rule: no alert recorded for the symbol, or strictly more than `interval` seconds since it. */
  predicate Allowed(last: map<string, int>, symbol: string, now: int, interval: int)
  {
    symbol !in last || now - last[symbol] > interval
  }

  /** The whole gate: a crossover with both EMAs defined, and the time rule. */
  predicate ShouldAlert(last: map<string, int>, symbol: string, now: int, interval: int, signal: Signal)
  {
    signal.crossover.Some? && signal.fastEma.Some? && signal.slowEma.Some?
    && Allowed(last, symbol, now, interval)
  }

  /** The timestamps after one gate decision: the symbol's entry becomes `now` when the alert goes out. */
  function Record(last: map<string, int>, symbol: string, now: int, dispatched: bool): (next: map<string, int>)
  {
    if dispatched then last[symbol := now] else last
  }

  class AlertGate {
    /** `sleep_seconds`: the polling interval in seconds. */
    const interval: int
    /** `last_alert_timestamp`: the time of the last alert sent per symbol. */
    var lastAlert: map<string, int>

    constructor (interval: int)
      ensures this.interval == interval && lastAlert == map[]
    {
      this.interval := interval;
      lastAlert := map[];
    }

    /**
     * The check-and-record block. `delivered` is what the notifier reports for
     * the alert; the source discards it, so the timestamp is recorded even when
     * the notification failed.
     */
    method Gate(symbol: string, now: int, signal: Signal, delivered: bool) returns (dispatched: bool)
      modifies this
      ensures dispatched == ShouldAlert(old(lastAlert), symbol, now, interval, signal)
      ensures lastAlert == Record(old(lastAlert), symbol, now, dispatched)
    {
      dispatched := false;
      if signal.crossover.Some? && signal.fastEma.Some? && signal.slowEma.Some? {
        var lastTs := if symbol in lastAlert then Some(lastAlert[symbol]) else None;
        if lastTs.None? || now - lastTs.value > interval {
          dispatched := true;
          lastAlert := lastAlert[symbol := now];
        }
      }
    }

    /** One symbol's turn in a polling cycle, from its closing prices on. */
    method Observe(symbol: string, closes: seq<real>, now: int, delivered: bool)
      returns (signal: Signal, dispatched: bool)
      modifies this
      ensures signal == CheckCrossover(closes, FastPeriod, SlowPeriod)
      ensures dispatched == ShouldAlert(old(lastAlert), symbol, now, interval, signal)
      ensures lastAlert == Record(old(lastAlert), symbol, now, dispatched)
    {
      signal := CheckCrossover(closes, FastPeriod, SlowPeriod);
      dispatched := Gate(symbol, now, signal, delivered);
    }
  }

  // ---------------------------------------------------------------------------
  // Properties of the gate

  /** A symbol that has never alerted passes the time rule at any time. */
  lemma FirstAlertAllowed(last: map<string, int>, symbol: string, now: int, interval: int)
    requires symbol !in last
    ensures Allowed(last, symbol, now, interval)
  {
  }

  /** Right after an alert at t0, the symbol passes again exactly when strictly more than `interval` seconds have gone by. */
  lemma RecordedAlertBlocksWindow(last: map<string, int>, symbol: string, t0: int, now: int, interval: int)
    ensures Allowed(Record(last, symbol, t0, true), symbol, now, interval) <==> now - t0 > interval
  {
  }

  /** Recording an alert for one symbol leaves every other symbol's gate as it was. */
  lemma OtherSymbolsUnaffected(last: map<string, int>, symbol: string, other: string, t0: int, dispatched: bool, now: int, interval: int)
    requires other != symbol
    ensures other in Record(last, symbol, t0, dispatched) <==> other in last
    ensures other in last ==> Record(last, symbol, t0, dispatched)[other] == last[other]
    ensures Allowed(Record(last, symbol, t0, dispatched), other, now, interval) == Allowed(last, other, now, interval)
  {
  }

  /** Only crossovers with both EMAs defined are alerted. */
  lemma NoCrossoverNoAlert(last: map<string, int>, symbol: string, now: int, interval: int, signal: Signal)
    requires signal.crossover.None? || signal.fastEma.None? || signal.slowEma.None?
    ensures !ShouldAlert(last, symbol, now, interval, signal)
  {
  }

  /** Two alerts for the same symbol at most `interval` seconds apart never both pass. */
  lemma AtMostOneAlertPerWindow(last: map<string, int>, symbol: string, t1: int, t2: int, interval: int,
                                first: Signal, second: Signal)
    requires ShouldAlert(last, symbol, t1, interval, first)
    requires t2 - t1 <= interval
    ensures !ShouldAlert(Record(last, symbol, t1, true), symbol, t2, interval, second)
  {
  }

  /** A client of the gate: a second crossover for the same symbol within the interval is suppressed, another symbol is not. */
  method TwoCrossoversInOneWindow(gate: AlertGate, signal: Signal, now: int)
    requires gate.lastAlert == map[] && gate.interval == 60
    requires signal.crossover.Some? && signal.fastEma.Some? && signal.slowEma.Some?
    modifies gate
  {
    var sentBtc := gate.Gate("BTCUSDT", now, signal, false);
    assert sentBtc;
    var sentAgain := gate.Gate("BTCUSDT", now + 60, signal, true);
    assert !sentAgain;
    var sentSol := gate.Gate("SOLUSDT", now + 60, signal, true);
    assert sentSol;
    var sentLater := gate.Gate("BTCUSDT", now + 61, signal, true);
    assert sentLater;
  }
}
