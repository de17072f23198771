/**
 * The end-of-day valuation of `runBacktest` (src/services/backtest.ts): the equity is the cash
 * plus every held quantity times that day's close of its ticker, and 0 for a ticker without a
 * bar that day.
 *
 * The source walks `Object.entries(positions)` in insertion order; the sum does not depend on
 * the order, so the specification `HoldingsValue` removes an arbitrary key and the method
 * `MarkToMarket` may visit the keys in any order.
 */
module BacktestValuation {
  import opened BacktestData
  import opened BacktestLedger

  /** What one held position is worth at `day`'s close. */
  function PositionValue(positions: map<string, Position>, hd: map<string, seq<Bar>>, day: int, t: string): real
    requires t in positions
  {
    positions[t].quantity as real * CloseOn(hd, t, day)
  }

  /** The sum of `PositionValue` over `keys`. */
  ghost function ValueOf(keys: set<string>, positions: map<string, Position>, hd: map<string, seq<Bar>>, day: int): real
    requires keys <= positions.Keys
    decreases |keys|
  {
    if keys == {} then 0.0
    else
      var t :| t in keys;
      PositionValue(positions, hd, day, t) + ValueOf(keys - {t}, positions, hd, day)
  }

  /**
   * The market value of every held position at `day`'s close: 0 without positions, and never
   * negative for positive positions at closes that are never negative.
   */
  ghost function HoldingsValue(positions: map<string, Position>, hd: map<string, seq<Bar>>, day: int): (r: real)
    ensures positions == map[] ==> r == 0.0
    ensures PositionsPositive(positions) && (forall t, b :: t in hd && b in hd[t] ==> b.close >= 0.0) ==> r >= 0.0
  {
    assert PositionsPositive(positions) && (forall t, b :: t in hd && b in hd[t] ==> b.close >= 0.0) ==>
             ValueOf(positions.Keys, positions, hd, day) >= 0.0 by {
      if PositionsPositive(positions) && (forall t, b :: t in hd && b in hd[t] ==> b.close >= 0.0) {
        ValueOfNonNegative(positions.Keys, positions, hd, day);
      }
    }
    ValueOf(positions.Keys, positions, hd, day)
  }

  /** The value of a key set splits off any one of its keys, whichever the definition chose. */
  lemma {:induction false} ValueOfRemove(keys: set<string>, positions: map<string, Position>, hd: map<string, seq<Bar>>,
                                         day: int, x: string)
    requires keys <= positions.Keys && x in keys
    ensures ValueOf(keys, positions, hd, day) == PositionValue(positions, hd, day, x) + ValueOf(keys - {x}, positions, hd, day)
    decreases |keys|
  {
    var t :| t in keys && ValueOf(keys, positions, hd, day) == PositionValue(positions, hd, day, t) + ValueOf(keys - {t}, positions, hd, day);
    if t != x {
      ValueOfRemove(keys - {t}, positions, hd, day, x);
      ValueOfRemove(keys - {x}, positions, hd, day, t);
      assert keys - {t} - {x} == keys - {x} - {t};
    }
  }

  /** With positive positions and closes that are never negative, the holdings are worth at least 0. */
  lemma {:induction false} ValueOfNonNegative(keys: set<string>, positions: map<string, Position>, hd: map<string, seq<Bar>>,
                                              day: int)
    requires keys <= positions.Keys && PositionsPositive(positions)
    requires forall t, b :: t in hd && b in hd[t] ==> b.close >= 0.0
    ensures ValueOf(keys, positions, hd, day) >= 0.0
    decreases |keys|
  {
    if keys != {} {
      var t :| t in keys;
      ValueOfRemove(keys, positions, hd, day, t);
      ValueOfNonNegative(keys - {t}, positions, hd, day);
      CloseOnNonNegative(hd, t, day);
      assert positions[t].quantity > 0;
      assert PositionValue(positions, hd, day, t) >= 0.0;
    }
  }

  lemma CloseOnNonNegative(hd: map<string, seq<Bar>>, t: string, day: int)
    requires forall t, b :: t in hd && b in hd[t] ==> b.close >= 0.0
    ensures CloseOn(hd, t, day) >= 0.0
  {
  }

  /** The daily equity: the cash plus every held quantity times the ticker's close that day. */
  method MarkToMarket(cash: real, positions: map<string, Position>, hd: map<string, seq<Bar>>, day: int)
    returns (equity: real)
    ensures equity == cash + HoldingsValue(positions, hd, day)
  {
    equity := cash;
    var remaining := positions.Keys;
    while remaining != {}
      invariant remaining <= positions.Keys
      invariant equity + ValueOf(remaining, positions, hd, day) == cash + HoldingsValue(positions, hd, day)
      decreases |remaining|
    {
      var ticker :| ticker in remaining;
      ValueOfRemove(remaining, positions, hd, day, ticker);
      var latestPrice := CloseOn(hd, ticker, day);
      equity := equity + positions[ticker].quantity as real * latestPrice;
      remaining := remaining - {ticker};
    }
  }
}
