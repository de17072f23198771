/**
 * The performance summary `runBacktest` derives from its trade log and equity curve
 * (src/services/backtest.ts). Non-finite results of a division are `None`: the return
 * percentage on a zero initial capital, and the drawdown once it becomes +Infinity (a running
 * peak of 0 followed by a negative equity). A drawdown of 0/0 is NaN, which no comparison
 * accepts, so it changes nothing.
 */
module BacktestMetrics {
  import opened Wrappers
  import opened Nodes
  import opened BacktestLedger

  datatype EquityPoint = EquityPoint(day: int, equity: real)

  /** `annualizedReturn`, `sharpeRatio` and `profitFactor` are never computed and stay 0. */
  datatype Performance = Performance(
    totalReturn: real,
    totalReturnPct: Option<real>,
    annualizedReturn: real,
    sharpeRatio: real,
    maxDrawdown: Option<real>,
    winRate: real,
    numberOfTrades: int,
    profitFactor: real)

  /** The summary a failed run reports: every field 0. */
  const InitialPerformance := Performance(0.0, Some(0.0), 0.0, 0.0, Some(0.0), 0.0, 0, 0.0)

  /** The last equity point, or the initial capital when there is none. */
  function FinalEquity(init: real, equity: seq<EquityPoint>): (r: real)
    ensures equity == [] ==> r == init
    ensures equity != [] ==> r == equity[|equity| - 1].equity
  {
    if |equity| > 0 then equity[|equity| - 1].equity else init
  }

  /** `(totalReturn / initialCapital) * 100`, which is not finite for a zero capital. */
  function TotalReturnPct(totalReturn: real, init: real): (r: Option<real>)
    ensures r.None? <==> init == 0.0
    ensures r.Some? ==> r.value * init == totalReturn * 100.0
    ensures init > 0.0 ==> (r.value >= 0.0 <==> totalReturn >= 0.0)
  {
    if init == 0.0 then None else Some(totalReturn / init * 100.0)
  }

  // ---------------------------------------------------------------- win rate

  /** `t` is a buy of the sell's ticker dated strictly before it. */
  predicate EarlierBuy(t: Trade, s: Trade) {
    t.side == Buy && t.ticker == s.ticker && t.day < s.day
  }

  /** `trades.find(t => t.side === 'buy' && t.ticker === s.ticker && t.date < s.date)`: the first such buy in the log. */
  function FirstEarlierBuy(trades: seq<Trade>, s: Trade): (r: Option<Trade>)
    ensures r.Some? <==> exists t :: t in trades && EarlierBuy(t, s)
    ensures r.Some? ==> exists k :: 0 <= k < |trades| && trades[k] == r.value && EarlierBuy(r.value, s)
                                    && forall j :: 0 <= j < k ==> !EarlierBuy(trades[j], s)
  {
    if trades == [] then None
    else if EarlierBuy(trades[0], s) then Some(trades[0])
    else
      var r := FirstEarlierBuy(trades[1..], s);
      assert forall t :: t in trades <==> t == trades[0] || t in trades[1..];
      if r.Some? then
        var k :| 0 <= k < |trades[1..]| && trades[1..][k] == r.value && EarlierBuy(r.value, s)
                 && forall j :: 0 <= j < k ==> !EarlierBuy(trades[1..][j], s);
        assert trades[k + 1] == r.value && forall j :: 0 <= j < k + 1 ==> !EarlierBuy(trades[j], s) by {
          forall j | 0 <= j < k + 1 ensures !EarlierBuy(trades[j], s) {
            if j > 0 { assert trades[j] == trades[1..][j - 1]; }
          }
        }
        r
      else r
  }

  /** A sell counts as profitable when its price beats the first earlier buy of the same ticker in the log. */
  predicate Profitable(trades: seq<Trade>, s: Trade) {
    s.side == Sell && FirstEarlierBuy(trades, s).Some? && s.price > FirstEarlierBuy(trades, s).value.price
  }

  /** The positions in `ts` of the trades that are profitable with respect to the whole log `trades`. */
  function ProfitableIndices(trades: seq<Trade>, ts: seq<Trade>): set<int> {
    set i | 0 <= i < |ts| && Profitable(trades, ts[i])
  }

  /** The positions of a non-empty `ts` are those of its prefix, plus the last one when it is profitable. */
  lemma ProfitableIndicesSnoc(trades: seq<Trade>, ts: seq<Trade>)
    requires ts != []
    ensures var last := |ts| - 1;
            ProfitableIndices(trades, ts)
              == ProfitableIndices(trades, ts[..last]) + (if Profitable(trades, ts[last]) then {last} else {})
  {
    var last := |ts| - 1;
    assert forall i :: 0 <= i < last ==> ts[..last][i] == ts[i];
  }

  /** How many of `ts` are profitable with respect to the whole log `trades`. */
  function CountProfitable(trades: seq<Trade>, ts: seq<Trade>): (r: nat)
    ensures r == |ProfitableIndices(trades, ts)| && r <= |ts|
  {
    if ts == [] then
      assert ProfitableIndices(trades, ts) == {};
      0
    else
      var last := |ts| - 1;
      var c := CountProfitable(trades, ts[..last]);
      ProfitableIndicesSnoc(trades, ts);
      assert last !in ProfitableIndices(trades, ts[..last]);
      c + (if Profitable(trades, ts[last]) then 1 else 0)
  }

  function CountSells(ts: seq<Trade>): nat {
    if ts == [] then 0 else CountSells(ts[..|ts| - 1]) + (if ts[|ts| - 1].side == Sell then 1 else 0)
  }

  /** Only sells can be profitable. */
  lemma {:induction false} ProfitableAreSells(trades: seq<Trade>, ts: seq<Trade>)
    ensures CountProfitable(trades, ts) <= CountSells(ts)
  {
    if ts != [] {
      ProfitableAreSells(trades, ts[..|ts| - 1]);
    }
  }

  /**
   * The share of profitable sells among all trades, buys included, as a percentage; 0 without
   * trades. Through `Percent`, `r * |trades| == 100 * CountProfitable(trades, trades)`; it is 0
   * when the log holds no sell.
   */
  function WinRate(trades: seq<Trade>): (r: real)
    ensures |trades| > 0 ==> r == Percent(CountProfitable(trades, trades), |trades|)
    ensures |trades| == 0 ==> r == 0.0
    ensures 0.0 <= r <= 100.0
    ensures CountSells(trades) == 0 ==> r == 0.0
  {
    if |trades| > 0 then
      ProfitableAreSells(trades, trades);
      Percent(CountProfitable(trades, trades), |trades|)
    else 0.0
  }

  /** `k / m * 100`: the percentage the count `k` is of `m`, in [0, 100], and 0 exactly for `k == 0`. */
  function Percent(k: nat, m: nat): (r: real)
    requires k <= m && m > 0
    ensures r * m as real == 100.0 * k as real
    ensures 0.0 <= r <= 100.0
    ensures k == 0 <==> r == 0.0
  {
    var p, n := k as real, m as real;
    FractionBounds(p, n);
    assert p / n * n == p;
    p / n * 100.0
  }

  // ---------------------------------------------------------------- drawdown

  /**
   * One iteration of the drawdown loop: raise the peak, then take the drawdown from it if it is
   * larger. A drawdown of +Infinity is `None` and stays; 0/0 is NaN and changes nothing.
   */
  function DrawdownStep(peak: real, maxDrawdown: Option<real>, equity: real): (r: (real, Option<real>))
    ensures r.0 >= peak && r.0 >= equity && (r.0 == peak || r.0 == equity)
    ensures r.1.None? <==> maxDrawdown.None? || (r.0 == 0.0 && equity < 0.0)
    ensures r.1.Some? ==> maxDrawdown.Some? && r.1.value >= maxDrawdown.value
                          && (r.0 != 0.0 ==> r.1.value >= Drawdown(r.0, equity))
    ensures r.1.Some? ==> r.1.value == maxDrawdown.value || (r.0 != 0.0 && r.1.value == Drawdown(r.0, equity))
  {
    var peak' := if equity > peak then equity else peak;
    if peak' == 0.0 then
      (peak', if equity < 0.0 then None else maxDrawdown)
    else
      var drawdown := Drawdown(peak', equity);
      (peak', if maxDrawdown.Some? && drawdown > maxDrawdown.value then Some(drawdown) else maxDrawdown)
  }

  /** How far `equity` lies below a non-zero `peak`, as a fraction of the peak. */
  function Drawdown(peak: real, equity: real): real
    requires peak != 0.0
  {
    (peak - equity) / peak
  }

  /** The running peak and the largest drawdown after the given equity points, from a peak of `init`. */
  function DrawdownScan(init: real, equity: seq<EquityPoint>): (real, Option<real>) {
    if equity == [] then (init, Some(0.0))
    else
      var (peak, maxDrawdown) := DrawdownScan(init, equity[..|equity| - 1]);
      DrawdownStep(peak, maxDrawdown, equity[|equity| - 1].equity)
  }

  /**
   * `maxDrawdown * 100`; Infinity stays Infinity. For a positive capital and equities that are
   * never negative it is finite and lies in [0, 100].
   */
  function MaxDrawdownPct(init: real, equity: seq<EquityPoint>): (r: Option<real>)
    ensures r.None? <==> DrawdownScan(init, equity).1.None?
    ensures r.Some? ==> r.value == DrawdownScan(init, equity).1.value * 100.0
    ensures init > 0.0 && (forall i :: 0 <= i < |equity| ==> equity[i].equity >= 0.0) ==>
              r.Some? && 0.0 <= r.value <= 100.0
  {
    var dd := DrawdownScan(init, equity).1;
    assert init > 0.0 && (forall i :: 0 <= i < |equity| ==> equity[i].equity >= 0.0) ==>
             dd.Some? && 0.0 <= dd.value <= 1.0 by {
      if init > 0.0 && (forall i :: 0 <= i < |equity| ==> equity[i].equity >= 0.0) {
        DrawdownFraction(init, equity);
      }
    }
    if dd.Some? then Some(dd.value * 100.0) else None
  }

  /** The running peak once the first `i + 1` equity points are seen. */
  function PeakAt(init: real, equity: seq<EquityPoint>, i: int): real
    requires 0 <= i < |equity|
  {
    DrawdownScan(init, equity[..i + 1]).0
  }

  /**
   * A finite drawdown of the scan is the largest drawdown of any point from its running peak: it
   * is at least each of them, and it is 0 or one of them.
   */
  lemma {:induction false} DrawdownIsLargest(init: real, equity: seq<EquityPoint>)
    ensures var dd := DrawdownScan(init, equity).1;
            dd.Some? ==>
              dd.value >= 0.0
              && (forall i :: 0 <= i < |equity| && PeakAt(init, equity, i) != 0.0 ==>
                    dd.value >= Drawdown(PeakAt(init, equity, i), equity[i].equity))
              && (dd.value == 0.0 || exists i :: 0 <= i < |equity| && PeakAt(init, equity, i) != 0.0
                                                && dd.value == Drawdown(PeakAt(init, equity, i), equity[i].equity))
  {
    if equity != [] {
      var last := |equity| - 1;
      var prefix := equity[..last];
      DrawdownIsLargest(init, prefix);
      assert equity[..last + 1] == equity;
      forall i | 0 <= i < last
        ensures PeakAt(init, prefix, i) == PeakAt(init, equity, i)
      {
        assert prefix[..i + 1] == equity[..i + 1];
      }
    }
  }

  /** The running peak is at least the initial capital and every equity seen. */
  lemma {:induction false} PeakBounds(init: real, equity: seq<EquityPoint>)
    ensures DrawdownScan(init, equity).0 >= init
    ensures forall i :: 0 <= i < |equity| ==> DrawdownScan(init, equity).0 >= equity[i].equity
  {
    if equity != [] {
      PeakBounds(init, equity[..|equity| - 1]);
    }
  }

  /** With a positive capital and equities that are never negative, the drawdown is a fraction in [0, 1]. */
  lemma {:induction false} DrawdownFraction(init: real, equity: seq<EquityPoint>)
    requires init > 0.0 && forall i :: 0 <= i < |equity| ==> equity[i].equity >= 0.0
    ensures var (peak, dd) := DrawdownScan(init, equity);
            peak >= init && dd.Some? && 0.0 <= dd.value <= 1.0
  {
    if equity != [] {
      var prefix := equity[..|equity| - 1];
      DrawdownFraction(init, prefix);
      var (peak, dd) := DrawdownScan(init, prefix);
      var e := equity[|equity| - 1].equity;
      var peak' := if e > peak then e else peak;
      assert peak' > 0.0 && 0.0 <= e <= peak';
      FractionBounds(peak' - e, peak');
    }
  }

  lemma FractionBounds(x: real, p: real)
    requires 0.0 <= x <= p && p > 0.0
    ensures 0.0 <= x / p <= 1.0
  {
    assert x / p * p == x;
  }

  /** A run whose equity never falls below its running peak reports no drawdown. */
  lemma {:induction false} NoDrawdownWhenRising(init: real, equity: seq<EquityPoint>)
    requires init > 0.0
    requires forall i :: 0 <= i < |equity| ==> equity[i].equity >= init
    requires forall i, j :: 0 <= i < j < |equity| ==> equity[i].equity <= equity[j].equity
    ensures DrawdownScan(init, equity).1 == Some(0.0)
    ensures equity != [] ==> DrawdownScan(init, equity).0 == equity[|equity| - 1].equity
  {
    if equity != [] {
      var prefix := equity[..|equity| - 1];
      NoDrawdownWhenRising(init, prefix);
    }
  }

  /** The drawdown loop over the equity curve: it ends with the scan's running peak and largest drawdown. */
  method ScanDrawdown(init: real, equity: seq<EquityPoint>) returns (maxEquity: real, maxDrawdown: Option<real>)
    ensures (maxEquity, maxDrawdown) == DrawdownScan(init, equity)
  {
    maxEquity := init;
    maxDrawdown := Some(0.0);
    for i := 0 to |equity|
      invariant (maxEquity, maxDrawdown) == DrawdownScan(init, equity[..i])
    {
      assert equity[..i + 1][..i] == equity[..i];
      var point := equity[i];
      if point.equity > maxEquity {
        maxEquity := point.equity;
      }
      if maxEquity == 0.0 {
        if point.equity < 0.0 {
          maxDrawdown := None;
        }
      } else {
        var drawdown := Drawdown(maxEquity, point.equity);
        if maxDrawdown.Some? && drawdown > maxDrawdown.value {
          maxDrawdown := Some(drawdown);
        }
      }
    }
    assert equity[..|equity|] == equity;
  }

  /**
   * The metrics block: final equity, total return and its percentage, the trade count, the win
   * rate, and the drawdown loop over the equity curve.
   */
  method ComputePerformance(init: real, trades: seq<Trade>, equity: seq<EquityPoint>) returns (p: Performance)
    ensures p.totalReturn == FinalEquity(init, equity) - init
    ensures p.totalReturnPct == TotalReturnPct(p.totalReturn, init)
    ensures p.numberOfTrades == |trades| && p.winRate == WinRate(trades)
    ensures p.maxDrawdown == MaxDrawdownPct(init, equity)
    ensures p.annualizedReturn == 0.0 && p.sharpeRatio == 0.0 && p.profitFactor == 0.0
  {
    var finalEquity := if |equity| > 0 then equity[|equity| - 1].equity else init;
    var totalReturn := finalEquity - init;
    var totalReturnPct := if init == 0.0 then None else Some(totalReturn / init * 100.0);
    var winRate := if |trades| > 0 then CountProfitable(trades, trades) as real / |trades| as real * 100.0 else 0.0;
    assert winRate == WinRate(trades);
    var _, maxDrawdown := ScanDrawdown(init, equity);
    var maxDrawdownPct := if maxDrawdown.Some? then Some(maxDrawdown.value * 100.0) else None;
    p := Performance(totalReturn, totalReturnPct, 0.0, 0.0, maxDrawdownPct, winRate, |trades|, 0.0);
  }
}
