/**
 * Price history for the backtest: the bars `mockHistoricalData` generates
 * (src/services/backtest.ts) and the lookups the engine makes into them.
 *
 * Dates are integer day numbers, day 0 being 1970-01-01 (a Thursday), so `Weekday` agrees with
 * `Date.getDay` (0 is Sunday, 6 is Saturday). Every bar carries the time of day of the start
 * date, because the generator steps a copy of the start date one day at a time. The values
 * `Math.random()` returns are an input: `SeriesDraws` lists them in call order.
 */
module BacktestData {
  import opened Wrappers
  import opened ConditionEvaluation

  datatype Bar = Bar(day: int, time: TimeOfDay, open: real, high: real, low: real, close: real, volume: int)

  function Weekday(day: int): (w: int)
    ensures 0 <= w < 7
  {
    (day + 4) % 7
  }

  predicate IsWeekend(day: int) {
    Weekday(day) == 0 || Weekday(day) == 6
  }

  /** The weekdays of the closed range [first, last]. */
  function WeekdaysIn(first: int, last: int): set<int> {
    set d | first <= d <= last && !IsWeekend(d)
  }

  /** The five `Math.random()` values drawn for one bar, in call order. */
  datatype Draws = Draws(change: real, openDip: real, highLift: real, lowDip: real, volume: real)

  /** The first value fixes the start price; `bars(k)` are the values drawn for the k-th bar. */
  datatype SeriesDraws = SeriesDraws(startPrice: real, bars: nat -> Draws)

  /** `Math.random()` returns a value in [0, 1). */
  predicate UnitInterval(x: real) {
    0.0 <= x < 1.0
  }

  predicate ValidDraws(d: Draws) {
    UnitInterval(d.change) && UnitInterval(d.openDip) && UnitInterval(d.highLift)
    && UnitInterval(d.lowDip) && UnitInterval(d.volume)
  }

  ghost predicate ValidSeriesDraws(s: SeriesDraws) {
    UnitInterval(s.startPrice) && forall k: nat :: ValidDraws(s.bars(k))
  }

  /** `100 + Math.random() * 200` */
  function StartPrice(s: SeriesDraws): real {
    100.0 + s.startPrice * 200.0
  }

  /** `Math.max(currentPrice + (Math.random() - 0.48) * 5, 1)` */
  function NextPrice(price: real, d: Draws): (p: real)
    ensures p >= 1.0
    ensures p == price + (d.change - 0.48) * 5.0 || (p == 1.0 && price + (d.change - 0.48) * 5.0 < 1.0)
  {
    var moved := price + (d.change - 0.48) * 5.0;
    if moved > 1.0 then moved else 1.0
  }

  /** The bar pushed for a weekday once the price has moved to `price`. */
  function MakeBar(day: int, time: TimeOfDay, price: real, d: Draws): Bar {
    Bar(day, time, price - d.openDip * 2.0, price + d.highLift * 2.0, price - d.lowDip * 2.0, price,
        (d.volume * 1000000.0).Floor + 100000)
  }

  /**
   * The bars generated from `day` through `last` when the price so far is `price` and `k` bars
   * have been generated already.
   */
  function MockSeries(day: int, last: int, time: TimeOfDay, price: real, k: nat, s: SeriesDraws): seq<Bar>
    decreases if day <= last then last - day + 1 else 0
  {
    if day > last then []
    else if IsWeekend(day) then MockSeries(day + 1, last, time, price, k, s)
    else
      var p := NextPrice(price, s.bars(k));
      [MakeBar(day, time, p, s.bars(k))] + MockSeries(day + 1, last, time, p, k + 1, s)
  }

  /** A bar as the generator shapes it from values in [0, 1). */
  predicate WellShapedBar(b: Bar) {
    && b.close >= 1.0
    && b.close - 2.0 < b.open <= b.close
    && b.close <= b.high < b.close + 2.0
    && b.close - 2.0 < b.low <= b.close
    && 100000 <= b.volume < 1100000
  }

  /** Every bar falls on a weekday of [first, last], at `time`, and the days ascend strictly. */
  predicate WeekdayBars(r: seq<Bar>, first: int, last: int, time: TimeOfDay) {
    && (forall i :: 0 <= i < |r| ==> first <= r[i].day <= last && !IsWeekend(r[i].day) && r[i].time == time)
    && (forall i, j :: 0 <= i < j < |r| ==> r[i].day < r[j].day)
  }

  /** Every bar of the series falls on a weekday of the range, at the start time, in ascending day order. */
  lemma {:induction false} MockSeriesDays(day: int, last: int, time: TimeOfDay, price: real, k: nat, s: SeriesDraws)
    ensures WeekdayBars(MockSeries(day, last, time, price, k, s), day, last, time)
    decreases if day <= last then last - day + 1 else 0
  {
    if day <= last {
      if IsWeekend(day) {
        MockSeriesDays(day + 1, last, time, price, k, s);
        assert MockSeries(day, last, time, price, k, s) == MockSeries(day + 1, last, time, price, k, s);
      } else {
        var p := NextPrice(price, s.bars(k));
        var rest := MockSeries(day + 1, last, time, p, k + 1, s);
        MockSeriesDays(day + 1, last, time, p, k + 1, s);
        var r := MockSeries(day, last, time, price, k, s);
        assert r == [MakeBar(day, time, p, s.bars(k))] + rest;
        assert forall i :: 1 <= i < |r| ==> r[i] == rest[i - 1];
      }
    }
  }

  /** The series has a bar on every weekday of the range and on no other day. */
  lemma {:induction false} MockSeriesCovers(day: int, last: int, time: TimeOfDay, price: real, k: nat, s: SeriesDraws)
    ensures (set b | b in MockSeries(day, last, time, price, k, s) :: b.day) == WeekdaysIn(day, last)
    decreases if day <= last then last - day + 1 else 0
  {
    if day > last {
      assert WeekdaysIn(day, last) == {};
    } else if IsWeekend(day) {
      MockSeriesCovers(day + 1, last, time, price, k, s);
      assert WeekdaysIn(day, last) == WeekdaysIn(day + 1, last);
    } else {
      var p := NextPrice(price, s.bars(k));
      var rest := MockSeries(day + 1, last, time, p, k + 1, s);
      var r := MockSeries(day, last, time, price, k, s);
      MockSeriesCovers(day + 1, last, time, p, k + 1, s);
      assert r == [MakeBar(day, time, p, s.bars(k))] + rest;
      assert WeekdaysIn(day, last) == {day} + WeekdaysIn(day + 1, last);
      assert (set b | b in r :: b.day) == {day} + (set b | b in rest :: b.day);
    }
  }

  /** Every close is at least 1, and valid draws give well-shaped bars. */
  lemma {:induction false} MockSeriesBars(day: int, last: int, time: TimeOfDay, price: real, k: nat, s: SeriesDraws)
    ensures forall b :: b in MockSeries(day, last, time, price, k, s) ==> b.close >= 1.0
    ensures ValidSeriesDraws(s) ==> forall b :: b in MockSeries(day, last, time, price, k, s) ==> WellShapedBar(b)
    decreases if day <= last then last - day + 1 else 0
  {
    if day <= last {
      if IsWeekend(day) {
        MockSeriesBars(day + 1, last, time, price, k, s);
      } else {
        var p := NextPrice(price, s.bars(k));
        MockSeriesBars(day + 1, last, time, p, k + 1, s);
        var d := s.bars(k);
        if ValidSeriesDraws(s) {
          assert ValidDraws(d);
          var v := d.volume * 1000000.0;
          assert 0.0 <= v < 1000000.0;
          assert 0 <= v.Floor < 1000000;
        }
      }
    }
  }

  /**
   * `mockHistoricalData(ticker, startDate, endDate)`: steps a day counter from `startDay`
   * through `endDay` and pushes one bar for every weekday. The ticker does not influence the
   * series.
   */
  method MockHistoricalData(ticker: string, startDay: int, endDay: int, time: TimeOfDay, s: SeriesDraws)
    returns (data: seq<Bar>)
    ensures data == MockSeries(startDay, endDay, time, StartPrice(s), 0, s)
  {
    data := [];
    var currentDay := startDay;
    var currentPrice := StartPrice(s);
    while currentDay <= endDay
      invariant data + MockSeries(currentDay, endDay, time, currentPrice, |data|, s)
                == MockSeries(startDay, endDay, time, StartPrice(s), 0, s)
      decreases endDay - currentDay
    {
      if !IsWeekend(currentDay) {
        var d := s.bars(|data|);
        currentPrice := NextPrice(currentPrice, d);
        data := data + [MakeBar(currentDay, time, currentPrice, d)];
      }
      currentDay := currentDay + 1;
    }
  }

  /** `data.find(d => dayKey(d.date) === day)`: the first bar of that day. */
  function FindBar(data: seq<Bar>, day: int): (r: Option<Bar>)
    ensures r.Some? <==> exists b :: b in data && b.day == day
    ensures r.Some? ==> r.value in data && r.value.day == day
    ensures r.Some? ==> exists k :: 0 <= k < |data| && data[k] == r.value
                                   && forall j :: 0 <= j < k ==> data[j].day != day
  {
    if data == [] then None
    else if data[0].day == day then Some(data[0])
    else
      var r := FindBar(data[1..], day);
      assert forall b :: b in data <==> b == data[0] || b in data[1..];
      if r.Some? then
        var k :| 0 <= k < |data[1..]| && data[1..][k] == r.value
                 && forall j :: 0 <= j < k ==> data[1..][j].day != day;
        assert data[k + 1] == r.value && forall j :: 0 <= j < k + 1 ==> data[j].day != day by {
          forall j | 0 <= j < k + 1 ensures data[j].day != day {
            if j > 0 { assert data[j] == data[1..][j - 1]; }
          }
        }
        r
      else r
  }

  /** `historicalData[ticker].find(…)?.close || 0`: the close of the ticker on that day, or 0. */
  function CloseOn(historicalData: map<string, seq<Bar>>, ticker: string, day: int): real {
    if ticker in historicalData then
      match FindBar(historicalData[ticker], day)
      case Some(b) => b.close
      case None => 0.0
    else 0.0
  }
}
