/**
  The reference prices a bot keeps per ticker, and how they are computed from the
  brokerage's answers. Prices are reals; JavaScript's `undefined` and `NaN` are `None`.
  The map `avg_entry_price` holds one entry under `overall_avg_entry_price` and one
  under `last_<X>_order_avg_price` for each window size X.
*/
module Pricing {
  import opened Wrappers
  import opened JsText

  /** An open position as the brokerage reports it; the entry price is already coerced
      with unary `+`, `None` standing for `NaN`. */
  datatype Position = Position(symbol: string, avgEntryPrice: Option<real>)

  /** A filled buy order; `None` stands for a fill price that coerces to `NaN`. */
  datatype Order = Order(symbol: string, filledAvgPrice: Option<real>)

  /** What the brokerage answers during one pricing refresh: the positions, `None` when
      the request failed, and the orders fetched for each window, by window index. A
      window with no answer, or `None`, is a failed request. */
  datatype Responses = Responses(positions: Option<seq<Position>>, lastOrders: seq<Option<seq<Order>>>)

  function OrdersFor(answers: Responses, i: nat): Option<seq<Order>> {
    if i < |answers.lastOrders| then answers.lastOrders[i] else None
  }

  /** The map `avg_entry_price`: a key that is absent reads as `undefined`. */
  type PriceTable = map<string, Option<real>>

  function Lookup(prices: PriceTable, key: string): Option<real> {
    if key in prices then prices[key] else None
  }

  const OverallKey := "overall_avg_entry_price"

  /** `last_${x}_order_avg_price` for a window size `x`; a `NaN` size prints as "NaN". */
  function LastXKey(x: Option<nat>): string {
    "last_" + (match x case Some(n) => NatToString(n) case None => "NaN") + "_order_avg_price"
  }

  lemma LastXKeyNotOverall(x: Option<nat>)
    ensures LastXKey(x) != OverallKey
  {
    assert LastXKey(x)[0] == 'l' && OverallKey[0] == 'o';
  }

  /** Position `i` is the first one whose symbol is `ticker`. */
  predicate IsFirstFor(ps: seq<Position>, ticker: string, i: nat) {
    i < |ps| && ps[i].symbol == ticker && forall j :: 0 <= j < i ==> ps[j].symbol != ticker
  }

  function FindPosition(ps: seq<Position>, ticker: string): (r: Option<nat>)
    ensures r.Some? ==> IsFirstFor(ps, ticker, r.value)
    ensures r.None? ==> forall j :: 0 <= j < |ps| ==> ps[j].symbol != ticker
  {
    if ps == [] then None
    else if ps[0].symbol == ticker then Some(0)
    else
      match FindPosition(ps[1..], ticker)
      case None => None
      case Some(k) => Some(k + 1)
  }

  /** `getStockAverageEntryPrice`: the entry price of the first position for the ticker;
      `undefined` when the request failed or there is no such position. */
  function StockAverageEntryPrice(ticker: string, positions: Option<seq<Position>>): (r: Option<real>)
    ensures positions.None? ==> r.None?
    ensures positions.Some? ==>
              (forall j :: 0 <= j < |positions.value| ==> positions.value[j].symbol != ticker) ==> r.None?
    ensures positions.Some? ==>
              forall i :: 0 <= i < |positions.value| && IsFirstFor(positions.value, ticker, i)
                ==> r == positions.value[i].avgEntryPrice
  {
    match positions
    case None => None
    case Some(ps) =>
      match FindPosition(ps, ticker)
      case None => None
      case Some(i) => ps[i].avgEntryPrice
  }

  /** `orders.filter(order => order.symbol === ticker)`. */
  function OrdersOf(orders: seq<Order>, ticker: string): (r: seq<Order>)
    ensures |r| <= |orders|
    ensures forall i :: 0 <= i < |r| ==> r[i].symbol == ticker && r[i] in orders
    ensures forall o :: o in orders && o.symbol == ticker ==> o in r
    decreases |orders|
  {
    if orders == [] then []
    else
      var rest := OrdersOf(orders[1..], ticker);
      assert forall o :: o in orders[1..] ==> o in orders;
      if orders[0].symbol == ticker then [orders[0]] + rest else rest
  }

  /** The filter keeps every order of the ticker as often as it occurs, drops every other
      order, and keeps the fetched order: the mean divides by exactly this count. */
  lemma {:induction false} OrdersOfKeeps(orders: seq<Order>, ticker: string)
    ensures forall o :: multiset(OrdersOf(orders, ticker))[o] == if o.symbol == ticker then multiset(orders)[o] else 0
    ensures IsSubsequence(OrdersOf(orders, ticker), orders)
    decreases |orders|
  {
    if orders != [] {
      OrdersOfKeeps(orders[1..], ticker);
      OrdersOfStep(orders, ticker);
    }
  }

  lemma OrdersOfStep(orders: seq<Order>, ticker: string)
    requires orders != []
    requires forall o :: multiset(OrdersOf(orders[1..], ticker))[o] == if o.symbol == ticker then multiset(orders[1..])[o] else 0
    requires IsSubsequence(OrdersOf(orders[1..], ticker), orders[1..])
    ensures forall o :: multiset(OrdersOf(orders, ticker))[o] == if o.symbol == ticker then multiset(orders)[o] else 0
    ensures IsSubsequence(OrdersOf(orders, ticker), orders)
  {
    var rest := OrdersOf(orders[1..], ticker);
    assert multiset(orders) == multiset{orders[0]} + multiset(orders[1..]) by {
      assert orders == [orders[0]] + orders[1..];
    }
    if orders[0].symbol == ticker {
      var r := [orders[0]] + rest;
      assert multiset(r) == multiset{orders[0]} + multiset(rest);
      assert r[0] == orders[0] && r[1..] == rest;
    }
  }

  /** `prices.reduce((a, b) => +a + +b, 0)`: `NaN` as soon as one price is `NaN`. */
  function PriceSum(orders: seq<Order>): Option<real>
    decreases |orders|
  {
    if orders == [] then Some(0.0)
    else
      match (orders[0].filledAvgPrice, PriceSum(orders[1..]))
      case (Some(p), Some(t)) => Some(p + t)
      case _ => None
  }

  predicate AllPriced(orders: seq<Order>) {
    forall i :: 0 <= i < |orders| ==> orders[i].filledAvgPrice.Some?
  }

  lemma {:induction false} PriceSumDefined(orders: seq<Order>)
    ensures PriceSum(orders).Some? <==> AllPriced(orders)
    decreases |orders|
  {
    if orders != [] {
      PriceSumDefined(orders[1..]);
      assert AllPriced(orders) <==> orders[0].filledAvgPrice.Some? && AllPriced(orders[1..]) by {
        assert forall i :: 0 < i < |orders| ==> orders[i] == orders[1..][i - 1];
      }
    }
  }

  /** `getLastXOrderPurchaseAverage`: the mean fill price of the fetched orders for the
      ticker; `undefined` when the request failed and `NaN` when there are none. */
  function LastXOrderPurchaseAverage(ticker: string, orders: Option<seq<Order>>): (r: Option<real>)
    ensures orders.None? ==> r.None?
    ensures orders.Some? && (forall o :: o in orders.value ==> o.symbol != ticker) ==> r.None?
    ensures orders.Some? ==> (r.Some? <==> |OrdersOf(orders.value, ticker)| > 0 && AllPriced(OrdersOf(orders.value, ticker)))
  {
    match orders
    case None => None
    case Some(os) =>
      var mine := OrdersOf(os, ticker);
      PriceSumDefined(mine);
      if |mine| == 0 then None
      else
        match PriceSum(mine)
        case None => None
        case Some(t) => Some(t / |mine| as real)
  }

  /** The fill prices of `orders` lie between `lo` and `hi`. */
  predicate PricedWithin(orders: seq<Order>, lo: real, hi: real) {
    forall i :: 0 <= i < |orders| ==>
      orders[i].filledAvgPrice.Some? && lo <= orders[i].filledAvgPrice.value <= hi
  }

  lemma {:induction false} PriceSumWithin(orders: seq<Order>, lo: real, hi: real)
    requires PricedWithin(orders, lo, hi)
    ensures PriceSum(orders).Some?
    ensures |orders| as real * lo <= PriceSum(orders).value <= |orders| as real * hi
    decreases |orders|
  {
    if orders != [] {
      assert PricedWithin(orders[1..], lo, hi) by {
        assert forall i :: 0 <= i < |orders| - 1 ==> orders[1..][i] == orders[i + 1];
      }
      PriceSumWithin(orders[1..], lo, hi);
    }
  }

  lemma MeanWithin(t: real, n: real, lo: real, hi: real)
    requires n > 0.0 && n * lo <= t <= n * hi
    ensures lo <= t / n <= hi
  {
    var m := t / n;
    assert t == m * n;
    assert (m - lo) * n >= 0.0 && (hi - m) * n >= 0.0;
  }

  lemma MeanOfPriced(orders: seq<Order>, lo: real, hi: real)
    requires |orders| > 0 && PricedWithin(orders, lo, hi)
    ensures PriceSum(orders).Some? && lo <= PriceSum(orders).value / (|orders| as real) <= hi
  {
    PriceSumWithin(orders, lo, hi);
    MeanWithin(PriceSum(orders).value, |orders| as real, lo, hi);
  }

  /** The average lies between the lowest and the highest fill price for the ticker. */
  lemma AverageWithin(ticker: string, orders: seq<Order>, lo: real, hi: real)
    requires PricedWithin(OrdersOf(orders, ticker), lo, hi)
    ensures LastXOrderPurchaseAverage(ticker, Some(orders)).Some? <==> |OrdersOf(orders, ticker)| > 0
    ensures LastXOrderPurchaseAverage(ticker, Some(orders)).Some? ==>
              lo <= LastXOrderPurchaseAverage(ticker, Some(orders)).value <= hi
  {
    var mine := OrdersOf(orders, ticker);
    if |mine| > 0 {
      MeanOfPriced(mine, lo, hi);
    }
  }

  /** The map `m` with `keys[i] := vals[i]` applied for `i` = 0 .. n - 1, in that order. */
  function Overwrite<K, V>(m: map<K, V>, keys: seq<K>, vals: seq<V>, n: nat): map<K, V>
    requires n <= |keys| && n <= |vals|
    decreases n
  {
    if n == 0 then m else Overwrite(m, keys, vals, n - 1)[keys[n - 1] := vals[n - 1]]
  }

  /** No write among `0 .. n - 1` after write `i` is to the same key. */
  predicate LastWriter<K(==)>(keys: seq<K>, i: nat, n: nat)
    requires i < n <= |keys|
  {
    forall j :: i < j < n ==> keys[j] != keys[i]
  }

  /** Every write is followed, possibly by itself, by a last write to the same key. */
  lemma LastWriterExists<K>(keys: seq<K>, i: nat, n: nat)
    requires i < n <= |keys|
    ensures exists j :: i <= j < n && keys[j] == keys[i] && LastWriter(keys, j, n)
    decreases n - i
  {
    if !LastWriter(keys, i, n) {
      var j :| i < j < n && keys[j] == keys[i];
      LastWriterExists(keys, j, n);
    }
  }

  /** Every written key is present and holds the value of its last write; every other key
      is as it was. */
  lemma OverwriteLookup<K, V>(m: map<K, V>, keys: seq<K>, vals: seq<V>, n: nat)
    requires n <= |keys| && n <= |vals|
    ensures forall i :: 0 <= i < n ==> keys[i] in Overwrite(m, keys, vals, n)
    ensures forall i :: 0 <= i < n && LastWriter(keys, i, n) ==> Overwrite(m, keys, vals, n)[keys[i]] == vals[i]
    ensures forall k :: k !in keys[..n] ==>
              (k in Overwrite(m, keys, vals, n) <==> k in m) && (k in m ==> Overwrite(m, keys, vals, n)[k] == m[k])
  {
    OverwritePresent(m, keys, vals, n);
    OverwriteLast(m, keys, vals, n);
    OverwriteOthers(m, keys, vals, n);
  }

  lemma {:induction false} OverwritePresent<K, V>(m: map<K, V>, keys: seq<K>, vals: seq<V>, n: nat)
    requires n <= |keys| && n <= |vals|
    ensures forall i :: 0 <= i < n ==> keys[i] in Overwrite(m, keys, vals, n)
    decreases n
  {
    if n > 0 {
      OverwritePresent(m, keys, vals, n - 1);
    }
  }

  lemma {:induction false} OverwriteLast<K, V>(m: map<K, V>, keys: seq<K>, vals: seq<V>, n: nat)
    requires n <= |keys| && n <= |vals|
    ensures forall i :: 0 <= i < n && LastWriter(keys, i, n) ==>
              keys[i] in Overwrite(m, keys, vals, n) && Overwrite(m, keys, vals, n)[keys[i]] == vals[i]
    decreases n
  {
    if n > 0 {
      OverwritePresent(m, keys, vals, n - 1);
      OverwriteLast(m, keys, vals, n - 1);
      forall i | 0 <= i < n - 1 && LastWriter(keys, i, n)
        ensures LastWriter(keys, i, n - 1)
      {
      }
    }
  }

  lemma {:induction false} OverwriteOthers<K, V>(m: map<K, V>, keys: seq<K>, vals: seq<V>, n: nat)
    requires n <= |keys| && n <= |vals|
    ensures forall k :: k !in keys[..n] ==>
              (k in Overwrite(m, keys, vals, n) <==> k in m) && (k in m ==> Overwrite(m, keys, vals, n)[k] == m[k])
    decreases n
  {
    if n > 0 {
      OverwriteOthers(m, keys, vals, n - 1);
      assert keys[..n] == keys[..n - 1] + [keys[n - 1]];
    }
  }

  /** The key each window writes: `last_${x}_order_avg_price`. */
  function WindowKeys(windows: seq<Option<nat>>): (keys: seq<string>)
    ensures |keys| == |windows| && forall i :: 0 <= i < |windows| ==> keys[i] == LastXKey(windows[i])
  {
    seq(|windows|, i requires 0 <= i < |windows| => LastXKey(windows[i]))
  }

  /** The value each window writes: the average over the orders fetched for it. */
  function WindowAverages(ticker: string, answers: Responses, n: nat): (avgs: seq<Option<real>>)
    ensures |avgs| == n && forall i :: 0 <= i < n ==> avgs[i] == LastXOrderPurchaseAverage(ticker, OrdersFor(answers, i))
  {
    seq(n, i requires 0 <= i < n => LastXOrderPurchaseAverage(ticker, OrdersFor(answers, i)))
  }

  /** `updateStockPricing`: the overall entry is written first, then one entry per window
      in window order. */
  function Refreshed(prices: PriceTable, ticker: string, windows: seq<Option<nat>>, answers: Responses): PriceTable {
    Overwrite(prices[OverallKey := StockAverageEntryPrice(ticker, answers.positions)],
              WindowKeys(windows), WindowAverages(ticker, answers, |windows|), |windows|)
  }

  /** The table once the first `n` windows are written over `start`. */
  function RefreshedPrefix(start: PriceTable, ticker: string, windows: seq<Option<nat>>, answers: Responses, n: nat): PriceTable
    requires n <= |windows|
  {
    if n == 0 then start
    else RefreshedPrefix(start, ticker, windows, answers, n - 1)
           [LastXKey(windows[n - 1]) := LastXOrderPurchaseAverage(ticker, OrdersFor(answers, n - 1))]
  }

  lemma RefreshedPrefixComplete(prices: PriceTable, ticker: string, windows: seq<Option<nat>>, answers: Responses)
    ensures var start := prices[OverallKey := StockAverageEntryPrice(ticker, answers.positions)];
            RefreshedPrefix(start, ticker, windows, answers, |windows|) == Refreshed(prices, ticker, windows, answers)
  {
    var start := prices[OverallKey := StockAverageEntryPrice(ticker, answers.positions)];
    PrefixIsOverwrite(start, ticker, windows, answers, WindowKeys(windows), WindowAverages(ticker, answers, |windows|), |windows|);
  }

  lemma {:induction false} PrefixIsOverwrite(start: PriceTable, ticker: string, windows: seq<Option<nat>>, answers: Responses,
                                             keys: seq<string>, values: seq<Option<real>>, n: nat)
    requires n <= |windows| == |keys| == |values|
    requires forall i :: 0 <= i < |windows| ==> keys[i] == LastXKey(windows[i])
    requires forall i :: 0 <= i < |windows| ==> values[i] == LastXOrderPurchaseAverage(ticker, OrdersFor(answers, i))
    ensures RefreshedPrefix(start, ticker, windows, answers, n) == Overwrite(start, keys, values, n)
  {
    if n > 0 {
      PrefixIsOverwrite(start, ticker, windows, answers, keys, values, n - 1);
    }
  }

  /** The entry under the key of a window that is the last to write it. */
  lemma RefreshedAtLastWriter(prices: PriceTable, ticker: string, windows: seq<Option<nat>>, answers: Responses, j: nat)
    requires j < |windows| && LastWriter(WindowKeys(windows), j, |windows|)
    ensures Lookup(Refreshed(prices, ticker, windows, answers), LastXKey(windows[j]))
              == LastXOrderPurchaseAverage(ticker, OrdersFor(answers, j))
  {
    RefreshedLookup(prices, ticker, windows, answers);
  }

  /** After a refresh the overall entry is the position's entry price, whatever it was
      before; every window's key is present and holds the average of the last window
      writing it; every other entry is as it was. */
  lemma RefreshedLookup(prices: PriceTable, ticker: string, windows: seq<Option<nat>>, answers: Responses)
    ensures OverallKey in Refreshed(prices, ticker, windows, answers)
    ensures Refreshed(prices, ticker, windows, answers)[OverallKey] == StockAverageEntryPrice(ticker, answers.positions)
    ensures forall i :: 0 <= i < |windows| ==> LastXKey(windows[i]) in Refreshed(prices, ticker, windows, answers)
    ensures forall i :: 0 <= i < |windows| && LastWriter(WindowKeys(windows), i, |windows|) ==>
              Refreshed(prices, ticker, windows, answers)[LastXKey(windows[i])]
                == LastXOrderPurchaseAverage(ticker, OrdersFor(answers, i))
    ensures forall k :: k != OverallKey && k !in WindowKeys(windows) ==>
              (k in Refreshed(prices, ticker, windows, answers) <==> k in prices) &&
              (k in prices ==> Refreshed(prices, ticker, windows, answers)[k] == prices[k])
  {
    var start := prices[OverallKey := StockAverageEntryPrice(ticker, answers.positions)];
    var keys := WindowKeys(windows);
    OverwriteLookup(start, keys, WindowAverages(ticker, answers, |windows|), |windows|);
    assert keys[..|windows|] == keys;
    assert OverallKey !in keys by {
      forall i | 0 <= i < |windows|
        ensures keys[i] != OverallKey
      {
        LastXKeyNotOverall(windows[i]);
      }
    }
  }
}
