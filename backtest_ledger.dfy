/**
 * The portfolio `runBacktest` keeps (src/services/backtest.ts): a cash balance, a `positions`
 * dictionary from ticker to held quantity and average price, and the trade log. Order
 * execution is specified by the function `ApplyOrder` on a `Ledger` value; the engine performs
 * it step by step in `ExecuteOrder`.
 *
 * The accounting invariant `LedgerValid` ties the state to the trade log: the cash is the initial
 * capital plus the cash flow of every trade, each held quantity is the net quantity traded,
 * every position is strictly positive, and every trade is priced at `price * quantity` with a
 * commission of `rate * quantity`.
 */
module BacktestLedger {
  import opened Wrappers
  import opened Nodes

  datatype Position = Position(quantity: int, avgPrice: real)

  datatype Trade = Trade(day: int, side: Side, ticker: string, quantity: int, price: real, value: real, commission: real)

  datatype Ledger = Ledger(cash: real, positions: map<string, Position>, trades: seq<Trade>)

  /** `positions[ticker]?.quantity || 0` */
  function Held(positions: map<string, Position>, ticker: string): int {
    if ticker in positions then positions[ticker].quantity else 0
  }

  /** No entry with a zero or negative quantity, and every average price is positive. */
  predicate PositionsPositive(positions: map<string, Position>) {
    forall t :: t in positions ==> positions[t].quantity > 0 && positions[t].avgPrice > 0.0
  }

  lemma MulMonotone(a: real, b: real, p: real)
    requires a <= b && p > 0.0
    ensures a * p <= b * p
  {
    assert (b - a) * p >= 0.0;
  }

  lemma MulStrict(a: real, b: real, p: real)
    requires a < b && p > 0.0
    ensures a * p < b * p
  {
    assert (b - a) * p > 0.0;
  }

  /** `Math.floor(cash / price)` */
  function AllBuyQuantity(cash: real, price: real): int
    requires price > 0.0
  {
    (cash / price).Floor
  }

  /** An 'all' buy names the largest whole number of shares whose value the cash covers. */
  lemma AllBuyQuantityFloor(cash: real, price: real)
    requires price > 0.0
    ensures var q := AllBuyQuantity(cash, price);
            q as real * price <= cash < (q as real + 1.0) * price
  {
    var x := cash / price;
    assert x * price == cash;
    var q := x.Floor;
    assert q as real <= x < q as real + 1.0;
    MulMonotone(q as real, x, price);
    MulStrict(x, q as real + 1.0, price);
    assert cash < (q as real + 1.0) * price;
  }

  /**
   * The number of shares a complete order names: for 'all', the held quantity on a sell and
   * the whole number of shares the cash pays for on a buy.
   */
  function ResolveQuantity(l: Ledger, ticker: string, side: Side, quantity: Quantity, price: real): (q: int)
    requires price > 0.0
    ensures quantity.Shares? ==> q == quantity.count
    ensures quantity == All && side == Sell ==> q == Held(l.positions, ticker)
    ensures quantity == All && side == Buy ==> q == AllBuyQuantity(l.cash, price)
  {
    match quantity
    case Shares(n) => n
    case All => if side == Sell then Held(l.positions, ticker) else AllBuyQuantity(l.cash, price)
  }

  /** The shares an order on `ticker` at `price` resolves to; 0 for an incomplete order. */
  function OrderQuantity(l: Ledger, order: OrderData, ticker: string, price: real): int
    requires price > 0.0
  {
    if OrderComplete(order) then ResolveQuantity(l, ticker, order.side.value, order.quantity.value, price)
    else 0
  }

  /** The order trades: it is complete, names a positive quantity, and is funded (buy) or covered (sell). */
  predicate Executes(l: Ledger, order: OrderData, ticker: string, price: real, rate: real)
    requires price > 0.0
  {
    var q := OrderQuantity(l, order, ticker, price);
    && OrderComplete(order)
    && q > 0
    && (order.side.value == Buy ==> l.cash >= price * q as real + rate * q as real)
    && (order.side.value == Sell ==> Held(l.positions, ticker) >= q)
  }

  /** The trade record: value `price * q` and commission `rate * q`. */
  function MakeTrade(day: int, side: Side, ticker: string, q: int, price: real, rate: real): Trade {
    Trade(day, side, ticker, q, price, price * q as real, rate * q as real)
  }

  /** `(quantity * avgPrice + value) / (quantity + q)`: the cost basis after buying `q` more at `price`. */
  function AveragePrice(q0: int, a0: real, q: int, price: real): real
    requires q0 >= 0 && q > 0
  {
    (q0 as real * a0 + price * q as real) / (q0 + q) as real
  }

  /** The new average times the new quantity is the old cost plus the cost of the shares bought. */
  lemma AveragePriceCost(q0: int, a0: real, q: int, price: real)
    requires q0 >= 0 && q > 0
    ensures AveragePrice(q0, a0, q, price) * (q0 + q) as real == q0 as real * a0 + price * q as real
  {
    var total := (q0 + q) as real;
    var cost := q0 as real * a0 + price * q as real;
    assert cost / total * total == cost;
  }

  /** The average stays positive, and buying at the average leaves it unchanged. */
  lemma AveragePriceBounds(q0: int, a0: real, q: int, price: real)
    requires q0 >= 0 && q > 0
    ensures a0 >= 0.0 && price > 0.0 ==> AveragePrice(q0, a0, q, price) > 0.0
    ensures AveragePrice(q0, price, q, price) == price
  {
    var total := (q0 + q) as real;
    if a0 >= 0.0 && price > 0.0 {
      assert q0 as real * a0 >= 0.0;
      assert price * q as real > 0.0;
    }
    assert q0 as real * price + price * q as real == price * total;
  }

  /** The cash a trade moves: a buy pays value and commission, a sell receives value less commission. */
  function Flow(t: Trade): real {
    if t.side == Buy then -(t.value + t.commission) else t.value - t.commission
  }

  /** The quantity a trade adds to its ticker's holding. */
  function Signed(t: Trade): int {
    if t.side == Buy then t.quantity else -t.quantity
  }

  /** The average price of the ticker's holding, 0 when there is none. */
  function AverageBefore(positions: map<string, Position>, ticker: string): real {
    if ticker in positions then positions[ticker].avgPrice else 0.0
  }

  /** The ticker's position after buying `q` more at `price`: its cost is the old cost plus the new. */
  function Averaged(positions: map<string, Position>, ticker: string, q: int, price: real): (p: Position)
    requires q > 0 && price > 0.0 && PositionsPositive(positions)
    ensures p.quantity == Held(positions, ticker) + q && p.avgPrice > 0.0
    ensures p.avgPrice * p.quantity as real
              == Held(positions, ticker) as real * AverageBefore(positions, ticker) + price * q as real
  {
    var q0 := Held(positions, ticker);
    var a0 := AverageBefore(positions, ticker);
    AveragePriceBounds(q0, a0, q, price);
    AveragePriceCost(q0, a0, q, price);
    Position(q0 + q, AveragePrice(q0, a0, q, price))
  }

  /** The holding after buying `q` shares of `ticker` at `price`, at the averaged cost basis. */
  function AddShares(positions: map<string, Position>, ticker: string, q: int, price: real): (r: map<string, Position>)
    requires q > 0 && price > 0.0 && PositionsPositive(positions)
    ensures PositionsPositive(r) && Held(r, ticker) == Held(positions, ticker) + q
    ensures ticker in r && r[ticker].avgPrice * (Held(positions, ticker) + q) as real
                           == Held(positions, ticker) as real * AverageBefore(positions, ticker) + price * q as real
    ensures forall x :: x != ticker ==> (x in r <==> x in positions) && (x in r ==> r[x] == positions[x])
    ensures forall x :: x != ticker ==> Held(r, x) == Held(positions, x)
  {
    var p := Averaged(positions, ticker, q, price);
    var r := positions[ticker := p];
    assert r[ticker] == p && p.quantity == Held(positions, ticker) + q;
    r
  }

  /** The holding after selling `q` of the held shares of `ticker`; an emptied position is deleted. */
  function RemoveShares(positions: map<string, Position>, ticker: string, q: int): (r: map<string, Position>)
    requires 0 < q <= Held(positions, ticker) && PositionsPositive(positions)
    ensures PositionsPositive(r) && Held(r, ticker) == Held(positions, ticker) - q
    ensures ticker in r <==> Held(positions, ticker) > q
    ensures ticker in r ==> r[ticker].avgPrice == positions[ticker].avgPrice
    ensures forall x :: x != ticker ==> (x in r <==> x in positions) && (x in r ==> r[x] == positions[x])
    ensures forall x :: x != ticker ==> Held(r, x) == Held(positions, x)
  {
    var rest := Held(positions, ticker) - q;
    if rest == 0 then positions - {ticker}
    else positions[ticker := positions[ticker].(quantity := rest)]
  }

  /** A funded buy: pay value and commission, add to the position, record the trade. */
  function Bought(l: Ledger, t: Trade): (r: Ledger)
    requires t.quantity > 0 && t.price > 0.0 && PositionsPositive(l.positions)
    ensures PositionsPositive(r.positions)
    ensures r.trades == l.trades + [t] && r.cash == l.cash - (t.value + t.commission)
  {
    Ledger(l.cash - (t.value + t.commission), AddShares(l.positions, t.ticker, t.quantity, t.price), l.trades + [t])
  }

  /** A covered sell: receive value less commission, reduce the position, record the trade. */
  function Sold(l: Ledger, t: Trade): (r: Ledger)
    requires 0 < t.quantity <= Held(l.positions, t.ticker) && PositionsPositive(l.positions)
    ensures PositionsPositive(r.positions)
    ensures r.trades == l.trades + [t] && r.cash == l.cash + (t.value - t.commission)
  {
    Ledger(l.cash + (t.value - t.commission), RemoveShares(l.positions, t.ticker, t.quantity), l.trades + [t])
  }

  /** The buy case once the quantity is known: it goes through only when the cash covers value plus commission. */
  function BuyResult(l: Ledger, ticker: string, day: int, q: int, price: real, rate: real): (r: Ledger)
    requires q > 0 && price > 0.0 && PositionsPositive(l.positions)
    ensures PositionsPositive(r.positions)
    ensures r == l || r.trades == l.trades + [MakeTrade(day, Buy, ticker, q, price, rate)]
  {
    var t := MakeTrade(day, Buy, ticker, q, price, rate);
    if l.cash >= t.value + t.commission then Bought(l, t) else l
  }

  /** The sell case once the quantity is known: it goes through only when the held shares cover it. */
  function SellResult(l: Ledger, ticker: string, day: int, q: int, price: real, rate: real): (r: Ledger)
    requires q > 0 && PositionsPositive(l.positions)
    ensures PositionsPositive(r.positions)
    ensures r == l || r.trades == l.trades + [MakeTrade(day, Sell, ticker, q, price, rate)]
  {
    var t := MakeTrade(day, Sell, ticker, q, price, rate);
    if Held(l.positions, ticker) >= q then Sold(l, t) else l
  }

  /**
   * Executing an order node on `ticker` at close `price` on `day` with a per-share
   * commission `rate`: an incomplete order or a non-positive quantity changes nothing.
   */
  function ApplyOrder(l: Ledger, order: OrderData, ticker: string, day: int, price: real, rate: real): (r: Ledger)
    requires price > 0.0 && PositionsPositive(l.positions)
    ensures PositionsPositive(r.positions)
    ensures |l.trades| <= |r.trades| <= |l.trades| + 1 && r.trades[..|l.trades|] == l.trades
    ensures forall i :: |l.trades| <= i < |r.trades| ==>
              r.trades[i].day == day && r.trades[i].ticker == ticker && r.trades[i].price == price
  {
    if !OrderComplete(order) then l
    else
      var q := OrderQuantity(l, order, ticker, price);
      if q <= 0 then l
      else if order.side.value == Buy then BuyResult(l, ticker, day, q, price, rate)
      else SellResult(l, ticker, day, q, price, rate)
  }

  /** Exactly one trade is recorded when the order executes, and otherwise nothing changes. */
  lemma ApplyOrderExecutes(l: Ledger, order: OrderData, ticker: string, day: int, price: real, rate: real)
    requires price > 0.0 && PositionsPositive(l.positions)
    ensures var r := ApplyOrder(l, order, ticker, day, price, rate);
            && (Executes(l, order, ticker, price, rate) ==>
                  r.trades == l.trades + [MakeTrade(day, order.side.value, ticker, OrderQuantity(l, order, ticker, price), price, rate)])
            && (!Executes(l, order, ticker, price, rate) ==> r == l)
  {
    if OrderComplete(order) && OrderQuantity(l, order, ticker, price) > 0 {
      var q := OrderQuantity(l, order, ticker, price);
      var t := MakeTrade(day, order.side.value, ticker, q, price, rate);
      if order.side.value == Buy {
        assert ApplyOrder(l, order, ticker, day, price, rate) == BuyResult(l, ticker, day, q, price, rate);
        if l.cash >= t.value + t.commission {
          assert Executes(l, order, ticker, price, rate);
        } else {
          assert !Executes(l, order, ticker, price, rate);
        }
      } else {
        assert ApplyOrder(l, order, ticker, day, price, rate) == SellResult(l, ticker, day, q, price, rate);
      }
    }
  }

  /**
   * The order-execution case of the traversal, as the engine performs it: resolve the
   * quantity, skip a non-positive one, then debit or credit the cash, update or delete the
   * position and push the trade.
   */
  method ExecuteOrder(cash: real, positions: map<string, Position>, trades: seq<Trade>, order: OrderData,
                      ticker: string, day: int, price: real, rate: real)
    returns (cash': real, positions': map<string, Position>, trades': seq<Trade>)
    requires price > 0.0 && PositionsPositive(positions)
    ensures Ledger(cash', positions', trades') == ApplyOrder(Ledger(cash, positions, trades), order, ticker, day, price, rate)
  {
    ghost var l := Ledger(cash, positions, trades);
    cash', positions', trades' := cash, positions, trades;
    if !OrderComplete(order) {
      return;
    }
    var quantity: int;
    if order.quantity.value == All {
      if order.side.value == Sell {
        quantity := if ticker in positions then positions[ticker].quantity else 0;
      } else {
        quantity := (cash / price).Floor;
      }
    } else {
      quantity := order.quantity.value.count;
    }
    assert quantity == OrderQuantity(l, order, ticker, price);
    if quantity <= 0 {
      return;
    }
    if order.side.value == Buy {
      cash', positions', trades' := ExecuteBuy(cash, positions, trades, ticker, day, quantity, price, rate);
    } else {
      cash', positions', trades' := ExecuteSell(cash, positions, trades, ticker, day, quantity, price, rate);
    }
  }

  /** A buy goes through only when the cash covers value plus commission. */
  method ExecuteBuy(cash: real, positions: map<string, Position>, trades: seq<Trade>,
                    ticker: string, day: int, quantity: int, price: real, rate: real)
    returns (cash': real, positions': map<string, Position>, trades': seq<Trade>)
    requires quantity > 0 && price > 0.0 && PositionsPositive(positions)
    ensures Ledger(cash', positions', trades') == BuyResult(Ledger(cash, positions, trades), ticker, day, quantity, price, rate)
  {
    cash', positions', trades' := cash, positions, trades;
    var value := price * quantity as real;
    var commission := rate * quantity as real;
    if cash >= value + commission {
      cash' := cash - (value + commission);
      positions' := AddToPosition(positions, ticker, quantity, price, value);
      trades' := trades + [Trade(day, Buy, ticker, quantity, price, value, commission)];
    }
  }

  /** A sell goes through only when the held shares cover it. */
  method ExecuteSell(cash: real, positions: map<string, Position>, trades: seq<Trade>,
                     ticker: string, day: int, quantity: int, price: real, rate: real)
    returns (cash': real, positions': map<string, Position>, trades': seq<Trade>)
    requires quantity > 0 && price > 0.0 && PositionsPositive(positions)
    ensures Ledger(cash', positions', trades') == SellResult(Ledger(cash, positions, trades), ticker, day, quantity, price, rate)
  {
    cash', positions', trades' := cash, positions, trades;
    var value := price * quantity as real;
    var commission := rate * quantity as real;
    var availableShares := if ticker in positions then positions[ticker].quantity else 0;
    if availableShares >= quantity {
      cash' := cash + (value - commission);
      positions' := RemoveFromPosition(positions, ticker, quantity);
      trades' := trades + [Trade(day, Sell, ticker, quantity, price, value, commission)];
    }
  }

  /** The buy branch's position update: create an empty position if needed, then average in the new shares. */
  method AddToPosition(positions: map<string, Position>, ticker: string, quantity: int, price: real, value: real)
    returns (positions': map<string, Position>)
    requires quantity > 0 && price > 0.0 && PositionsPositive(positions) && value == price * quantity as real
    ensures positions' == AddShares(positions, ticker, quantity, price)
  {
    ghost var q0 := Held(positions, ticker);
    ghost var a0 := AverageBefore(positions, ticker);
    positions' := positions;
    if ticker !in positions' {
      positions' := positions'[ticker := Position(0, 0.0)];
    }
    var totalShares := positions'[ticker].quantity + quantity;
    var totalCost := positions'[ticker].quantity as real * positions'[ticker].avgPrice + value;
    assert totalShares == q0 + quantity && totalCost == q0 as real * a0 + price * quantity as real;
    assert Averaged(positions, ticker, quantity, price) == Position(totalShares, totalCost / totalShares as real);
    positions' := positions'[ticker := Position(totalShares, totalCost / totalShares as real)];
  }

  /** The sell branch's position update: subtract the shares, then delete the position if none remain. */
  method RemoveFromPosition(positions: map<string, Position>, ticker: string, quantity: int)
    returns (positions': map<string, Position>)
    requires 0 < quantity <= Held(positions, ticker) && PositionsPositive(positions)
    ensures positions' == RemoveShares(positions, ticker, quantity)
  {
    positions' := positions[ticker := positions[ticker].(quantity := positions[ticker].quantity - quantity)];
    if positions'[ticker].quantity == 0 {
      positions' := positions' - {ticker};
    }
  }

  /** The orders of one traversal applied in visiting order. */
  function ApplyOrders(l: Ledger, orders: seq<OrderData>, ticker: string, day: int, price: real, rate: real): (r: Ledger)
    requires price > 0.0 && PositionsPositive(l.positions)
    ensures PositionsPositive(r.positions)
    ensures |l.trades| <= |r.trades| <= |l.trades| + |orders| && r.trades[..|l.trades|] == l.trades
    ensures forall i :: |l.trades| <= i < |r.trades| ==>
              r.trades[i].day == day && r.trades[i].ticker == ticker && r.trades[i].price == price
  {
    if orders == [] then l
    else
      var m := ApplyOrders(l, orders[..|orders| - 1], ticker, day, price, rate);
      var r := ApplyOrder(m, orders[|orders| - 1], ticker, day, price, rate);
      assert r.trades[..|m.trades|] == m.trades;
      r
  }

  // ---------------------------------------------------------------- the trade log

  /** The initial capital plus the cash flow of every trade in the log. */
  function CashAfter(init: real, ts: seq<Trade>): real {
    if ts == [] then init else CashAfter(init, ts[..|ts| - 1]) + Flow(ts[|ts| - 1])
  }

  /** The net quantity of `ticker` the log has bought. */
  function Net(ts: seq<Trade>, ticker: string): int {
    if ts == [] then 0
    else Net(ts[..|ts| - 1], ticker) + (if ts[|ts| - 1].ticker == ticker then Signed(ts[|ts| - 1]) else 0)
  }

  /** A trade as the engine records it with per-share commission `rate`. */
  predicate TradeWellFormed(t: Trade, rate: real) {
    t.quantity > 0 && t.value == t.price * t.quantity as real && t.commission == rate * t.quantity as real
  }

  ghost predicate LedgerValid(init: real, rate: real, l: Ledger) {
    && l.cash == CashAfter(init, l.trades)
    && PositionsPositive(l.positions)
    && (forall x :: Held(l.positions, x) == Net(l.trades, x))
    && (forall i :: 0 <= i < |l.trades| ==> TradeWellFormed(l.trades[i], rate))
  }

  lemma LogSnoc(init: real, ts: seq<Trade>, t: Trade)
    ensures CashAfter(init, ts + [t]) == CashAfter(init, ts) + Flow(t)
    ensures forall x :: Net(ts + [t], x) == Net(ts, x) + (if t.ticker == x then Signed(t) else 0)
  {
    assert (ts + [t])[..|ts|] == ts;
  }

  /** The portfolio starts empty with the initial capital. */
  lemma InitialLedgerValid(init: real, rate: real)
    ensures LedgerValid(init, rate, Ledger(init, map[], []))
  {
  }

  lemma BoughtValid(init: real, rate: real, l: Ledger, t: Trade)
    requires t.quantity > 0 && t.price > 0.0 && t.side == Buy && TradeWellFormed(t, rate) && LedgerValid(init, rate, l)
    ensures LedgerValid(init, rate, Bought(l, t))
  {
    var r := Bought(l, t);
    LogSnoc(init, l.trades, t);
    forall x ensures Held(r.positions, x) == Net(r.trades, x) {
      if x != t.ticker {
        assert Held(r.positions, x) == Held(l.positions, x);
      }
    }
  }

  lemma SoldValid(init: real, rate: real, l: Ledger, t: Trade)
    requires 0 < t.quantity <= Held(l.positions, t.ticker) && t.side == Sell && TradeWellFormed(t, rate)
    requires LedgerValid(init, rate, l)
    ensures LedgerValid(init, rate, Sold(l, t))
  {
    var r := Sold(l, t);
    LogSnoc(init, l.trades, t);
    forall x ensures Held(r.positions, x) == Net(r.trades, x) {
      if x != t.ticker {
        assert Held(r.positions, x) == Held(l.positions, x);
      }
    }
  }

  /** Executing an order keeps the accounting invariant, given a positive price. */
  lemma ApplyOrderValid(init: real, rate: real, l: Ledger, order: OrderData, ticker: string, day: int, price: real)
    requires price > 0.0 && LedgerValid(init, rate, l)
    ensures LedgerValid(init, rate, ApplyOrder(l, order, ticker, day, price, rate))
  {
    if OrderComplete(order) && OrderQuantity(l, order, ticker, price) > 0 {
      var q := OrderQuantity(l, order, ticker, price);
      if order.side.value == Buy {
        var t := MakeTrade(day, Buy, ticker, q, price, rate);
        if l.cash >= t.value + t.commission {
          BoughtValid(init, rate, l, t);
        }
      } else {
        var t := MakeTrade(day, Sell, ticker, q, price, rate);
        if Held(l.positions, ticker) >= q {
          SoldValid(init, rate, l, t);
        }
      }
    }
  }

  /** Every traversal keeps the accounting invariant. */
  lemma {:induction false} ApplyOrdersValid(init: real, rate: real, l: Ledger, orders: seq<OrderData>, ticker: string,
                                           day: int, price: real)
    requires price > 0.0 && LedgerValid(init, rate, l)
    ensures LedgerValid(init, rate, ApplyOrders(l, orders, ticker, day, price, rate))
  {
    if orders != [] {
      ApplyOrdersValid(init, rate, l, orders[..|orders| - 1], ticker, day, price);
      ApplyOrderValid(init, rate, ApplyOrders(l, orders[..|orders| - 1], ticker, day, price, rate),
                      orders[|orders| - 1], ticker, day, price);
    }
  }

  /** No short selling: a valid ledger never holds a negative quantity, nor nets one in its log. */
  lemma NoShortPositions(init: real, rate: real, l: Ledger, x: string)
    requires LedgerValid(init, rate, l)
    ensures Held(l.positions, x) >= 0 && Net(l.trades, x) >= 0
    ensures x in l.positions <==> Net(l.trades, x) > 0
  {
    assert Held(l.positions, x) == Net(l.trades, x);
  }

  /**
   * A buy never overdraws: it needs the cash for value and commission. A sell can only lower
   * the cash when the per-share commission exceeds the price.
   */
  lemma ApplyOrderKeepsCash(l: Ledger, order: OrderData, ticker: string, day: int, price: real, rate: real)
    requires PositionsPositive(l.positions) && price > 0.0 && l.cash >= 0.0
    ensures order.side == Some(Buy) || rate <= price ==> ApplyOrder(l, order, ticker, day, price, rate).cash >= 0.0
  {
    if OrderComplete(order) && OrderQuantity(l, order, ticker, price) > 0 && order.side.value == Sell && rate <= price {
      var q := OrderQuantity(l, order, ticker, price);
      var t := MakeTrade(day, Sell, ticker, q, price, rate);
      if Held(l.positions, ticker) >= q {
        assert ApplyOrder(l, order, ticker, day, price, rate) == Sold(l, t);
        assert t.value - t.commission == (price - rate) * q as real;
        assert (price - rate) * q as real >= 0.0;
      }
    }
  }

  /** With the per-share commission 1, selling one share held at price 0.5 takes the cash below zero. */
  lemma SellCanOverdraw()
    ensures var l := Ledger(0.0, map["A" := Position(1, 0.5)], []);
            var sell := OrderData(Some(Market), Some(Sell), Some(Shares(1)));
            ApplyOrder(l, sell, "A", 0, 0.5, 1.0).cash == -0.5
  {
    var l := Ledger(0.0, map["A" := Position(1, 0.5)], []);
    var sell := OrderData(Some(Market), Some(Sell), Some(Shares(1)));
    assert OrderQuantity(l, sell, "A", 0.5) == 1;
    assert Executes(l, sell, "A", 0.5, 1.0);
  }

  /**
   * An 'all' buy sizes the order by the cash alone, so with a positive commission it is
   * rejected whenever the price divides the cash exactly.
   */
  lemma AllBuyIgnoresCommission(l: Ledger, ticker: string, day: int, price: real, rate: real, n: nat)
    requires PositionsPositive(l.positions) && price > 0.0 && rate > 0.0 && n > 0 && l.cash == price * n as real
    ensures var buyAll := OrderData(Some(Market), Some(Buy), Some(All));
            ApplyOrder(l, buyAll, ticker, day, price, rate) == l
  {
    var buyAll := OrderData(Some(Market), Some(Buy), Some(All));
    assert l.cash / price == n as real;
    var q := OrderQuantity(l, buyAll, ticker, price);
    assert q == n;
    var t := MakeTrade(day, Buy, ticker, q, price, rate);
    assert t.commission > 0.0 && l.cash < t.value + t.commission;
    assert BuyResult(l, ticker, day, q, price, rate) == l;
  }

  /** Selling 'all' with nothing held trades nothing. */
  lemma SellAllWithoutPosition(l: Ledger, ticker: string, day: int, price: real, rate: real)
    requires PositionsPositive(l.positions) && price > 0.0 && ticker !in l.positions
    ensures forall t :: OrderComplete(OrderData(Some(t), Some(Sell), Some(All))) &&
              ApplyOrder(l, OrderData(Some(t), Some(Sell), Some(All)), ticker, day, price, rate) == l
  {
  }

  /** Per-share commission: the cash is the initial capital plus net proceeds less `rate` per share traded. */
  function Proceeds(ts: seq<Trade>): real {
    if ts == [] then 0.0
    else Proceeds(ts[..|ts| - 1]) + (if ts[|ts| - 1].side == Buy then -ts[|ts| - 1].value else ts[|ts| - 1].value)
  }

  function SharesTraded(ts: seq<Trade>): int {
    if ts == [] then 0 else SharesTraded(ts[..|ts| - 1]) + ts[|ts| - 1].quantity
  }

  lemma {:induction false} CommissionPerShare(init: real, rate: real, ts: seq<Trade>)
    requires forall i :: 0 <= i < |ts| ==> TradeWellFormed(ts[i], rate)
    ensures CashAfter(init, ts) == init + Proceeds(ts) - rate * SharesTraded(ts) as real
  {
    if ts != [] {
      var init' := ts[..|ts| - 1];
      assert forall i :: 0 <= i < |init'| ==> init'[i] == ts[i];
      CommissionPerShare(init, rate, init');
      var t := ts[|ts| - 1];
      assert TradeWellFormed(t, rate);
      assert rate * SharesTraded(ts) as real == rate * SharesTraded(init') as real + rate * t.quantity as real;
    }
  }
}
