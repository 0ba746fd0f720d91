/**
  When a pending scenario buys on a quote. For each pending scenario, the quote handler
  in trading/dailyPurchaseBot.js evaluates two independent checks: the `switch` case
  for the average-entry-price scenario, then the `startsWith` test for the last-X
  scenarios. Each check compares the ask price with one entry of `avg_entry_price`.
*/
module Triggers {
  import opened Wrappers
  import opened JsText
  import opened TradeValues
  import opened Pricing

  /** `!!askPrice`: defined, not `NaN` and not zero. */
  predicate Truthy(ask: Option<real>) {
    ask.Some? && ask.value != 0.0
  }

  /** `ask < reference`, which is false as soon as either side is `undefined` or `NaN`. */
  predicate Below(ask: Option<real>, reference: Option<real>) {
    ask.Some? && reference.Some? && ask.value < reference.value
  }

  /** The key a last-X scenario reads: `last_${event.split("_")[4]}_order_avg_price`,
      where a missing field prints as "undefined". */
  function ReadKey(event: string): string {
    "last_" + Field(event, '_', 4).GetOr("undefined") + "_order_avg_price"
  }

  /** The `switch` case: the average-entry-price scenario buys below the overall entry price. */
  predicate AverageRule(event: string, ask: Option<real>, prices: PriceTable) {
    event == PriceLowerThanAverage && Truthy(ask) && Below(ask, Lookup(prices, OverallKey))
  }

  /** The `startsWith` test: a last-X scenario buys below the average it names. */
  predicate LastXRule(event: string, ask: Option<real>, prices: PriceTable) {
    StartsWith(event, LastXPrefix) && Truthy(ask) && Below(ask, Lookup(prices, ReadKey(event)))
  }

  /** The scenario buys on this quote. */
  predicate ShouldFire(event: string, ask: Option<real>, prices: PriceTable) {
    AverageRule(event, ask, prices) || LastXRule(event, ask, prices)
  }

  /** The two checks never both hold, so one quote begins at most one purchase per
      evaluated scenario. */
  lemma RulesExclusive(event: string, ask: Option<real>, prices: PriceTable)
    ensures !(AverageRule(event, ask, prices) && LastXRule(event, ask, prices))
  {
    AverageIsNotLastX();
  }

  /** The average-entry-price scenario's name does not start with the last-X prefix. */
  lemma AverageIsNotLastX()
    ensures !StartsWith(PriceLowerThanAverage, LastXPrefix)
  {
    assert PriceLowerThanAverage[..|LastXPrefix|][17] == 'A' && LastXPrefix[17] == 'L';
  }

  /** The average-entry-price scenario buys exactly when the ask is truthy and strictly
      below a defined overall entry price. */
  lemma AverageFires(ask: Option<real>, prices: PriceTable)
    ensures ShouldFire(PriceLowerThanAverage, ask, prices) <==>
              ask.Some? && ask.value != 0.0 && OverallKey in prices && prices[OverallKey].Some? &&
              ask.value < prices[OverallKey].value
  {
    RulesExclusive(PriceLowerThanAverage, ask, prices);
    AverageIsNotLastX();
  }

  /** `DAILY_PURCHASE`, and any name that is neither the average-entry-price scenario
      nor a last-X scenario, never buys on a quote. */
  lemma OthersNeverFire(event: string, ask: Option<real>, prices: PriceTable)
    requires event != PriceLowerThanAverage && !StartsWith(event, LastXPrefix)
    ensures !ShouldFire(event, ask, prices)
  {
  }

  lemma DailyPurchaseNeverFires(ask: Option<real>, prices: PriceTable)
    ensures !ShouldFire(DailyPurchase, ask, prices)
  {
    assert DailyPurchase[0] == 'D' && LastXPrefix[0] == 'P';
    assert !StartsWith(DailyPurchase, LastXPrefix);
    OthersNeverFire(DailyPurchase, ask, prices);
  }

  /** Nothing buys on a quote without a truthy ask price. */
  lemma FalsyAskNeverFires(event: string, ask: Option<real>, prices: PriceTable)
    requires ask.None? || ask.value == 0.0
    ensures !ShouldFire(event, ask, prices)
  {
  }

  /** The reference a scenario compares with; a missing one is `undefined`. */
  function Reference(event: string, prices: PriceTable): Option<real> {
    if event == PriceLowerThanAverage then Lookup(prices, OverallKey) else Lookup(prices, ReadKey(event))
  }

  /** An absent or `NaN` reference never buys. */
  lemma MissingReferenceNeverFires(event: string, ask: Option<real>, prices: PriceTable)
    requires Reference(event, prices).None?
    ensures !ShouldFire(event, ask, prices)
  {
    if event == PriceLowerThanAverage {
      AverageIsNotLastX();
    }
  }

  /** A last-X scenario buys exactly when the ask is truthy and strictly below the
      defined entry under the key it reads. */
  lemma LastXFires(event: string, ask: Option<real>, prices: PriceTable)
    requires StartsWith(event, LastXPrefix)
    ensures ShouldFire(event, ask, prices) <==>
              ask.Some? && ask.value != 0.0 && ReadKey(event) in prices && prices[ReadKey(event)].Some? &&
              ask.value < prices[ReadKey(event)].value
  {
    RulesExclusive(event, ask, prices);
    assert event != PriceLowerThanAverage by {
      AverageIsNotLastX();
    }
  }

  lemma Cancel<T>(p: seq<T>, a: seq<T>, b: seq<T>, q: seq<T>)
    requires p + a + q == p + b + q
    ensures a == b
  {
    assert |a| == |b|;
    assert a == (p + a + q)[|p|..|p| + |a|];
    assert b == (p + b + q)[|p|..|p| + |b|];
  }

  lemma ToNumberOfNaN()
    ensures ToNumber("NaN") == None
  {
    assert StartsClean("NaN") && EndsClean("NaN");
    TrimIdentity("NaN");
    assert !IsDigit("NaN"[0]);
  }

  /** The key a last-X scenario reads is the key the refresh writes for the window size
      parsed from the same name exactly when field 4 exists and is a canonical numeral
      or the text "NaN". A missing field reads "undefined" but writes "NaN"; "007", "",
      " 5" or "5x" read back a different text from the one `${+field}` prints. */
  lemma KeyAgreement(event: string)
    ensures ReadKey(event) == LastXKey(WindowSize(event)) <==>
              Field(event, '_', 4).Some? &&
              (IsCanonicalDecimal(Field(event, '_', 4).value) || Field(event, '_', 4).value == "NaN")
  {
    var field := Field(event, '_', 4).GetOr("undefined");
    var written := match WindowSize(event) case Some(n) => NatToString(n) case None => "NaN";
    assert ReadKey(event) == "last_" + field + "_order_avg_price";
    assert LastXKey(WindowSize(event)) == "last_" + written + "_order_avg_price";
    WindowSizeOfField(event);
    ToNumberOfNaN();
    if ReadKey(event) == LastXKey(WindowSize(event)) {
      Cancel("last_", field, written, "_order_avg_price");
      if WindowSize(event).Some? {
        NatToStringValue(WindowSize(event).value);
        assert Field(event, '_', 4).Some? by {
          assert !IsDigit("undefined"[0]);
        }
      } else {
        assert Field(event, '_', 4).Some? by {
          assert "undefined" != "NaN";
        }
      }
    }
  }

  /** A scenario reads only the entry of the window its own name denotes: if the key it
      reads is the one written for window size `x`, then `x` is its parsed window size. */
  lemma ReadKeyNamesWindow(event: string, x: Option<nat>)
    requires ReadKey(event) == LastXKey(x)
    ensures x == WindowSize(event)
  {
    var field := Field(event, '_', 4).GetOr("undefined");
    var written := match x case Some(n) => NatToString(n) case None => "NaN";
    assert ReadKey(event) == "last_" + field + "_order_avg_price";
    assert LastXKey(x) == "last_" + written + "_order_avg_price";
    Cancel("last_", field, written, "_order_avg_price");
    WindowSizeOfField(event);
    ToNumberOfNaN();
    if x.Some? {
      NatToStringValue(x.value);
      assert Field(event, '_', 4).Some? by {
        assert !IsDigit("undefined"[0]);
      }
      NatToStringValue(WindowSize(event).value);
    } else {
      assert Field(event, '_', 4).Some? by {
        assert "undefined" != "NaN";
      }
    }
  }

  /** After a refresh with the window sizes parsed from the enabled scenarios, an
      enabled last-X scenario whose field 4 is a canonical numeral (or "NaN") reads the
      average computed for a window of its own size: the last one written under its key. */
  lemma ScenarioReadsItsWindow(event: string, enabled: seq<string>, prices: PriceTable,
                               ticker: string, answers: Responses)
    requires event in enabled && StartsWith(event, LastXPrefix)
    requires Field(event, '_', 4).Some?
    requires IsCanonicalDecimal(Field(event, '_', 4).value) || Field(event, '_', 4).value == "NaN"
    ensures var windows := LastXAvgTradesQty(AvgTrades(enabled));
            exists j :: 0 <= j < |windows| && windows[j] == WindowSize(event) &&
              Lookup(Refreshed(prices, ticker, windows, answers), ReadKey(event))
                == LastXOrderPurchaseAverage(ticker, OrdersFor(answers, j))
  {
    var windows := LastXAvgTradesQty(AvgTrades(enabled));
    LastWindowOf(event, enabled);
    var j :| 0 <= j < |windows| && windows[j] == WindowSize(event) && LastWriter(WindowKeys(windows), j, |windows|);
    RefreshedAtLastWriter(prices, ticker, windows, answers, j);
    ReadsWindow(event, prices, ticker, windows, answers, j);
  }

  /** Such a scenario reads the key written for its own window size, and some window of
      that size is the last to write that key. */
  lemma LastWindowOf(event: string, enabled: seq<string>)
    requires event in enabled && StartsWith(event, LastXPrefix)
    requires Field(event, '_', 4).Some?
    requires IsCanonicalDecimal(Field(event, '_', 4).value) || Field(event, '_', 4).value == "NaN"
    ensures ReadKey(event) == LastXKey(WindowSize(event))
    ensures var windows := LastXAvgTradesQty(AvgTrades(enabled));
            exists j :: 0 <= j < |windows| && windows[j] == WindowSize(event) && LastWriter(WindowKeys(windows), j, |windows|)
  {
    var trades := AvgTrades(enabled);
    var windows := LastXAvgTradesQty(trades);
    var keys := WindowKeys(windows);
    KeyAgreement(event);
    InAvgTrades(event, enabled);
    var i :| 0 <= i < |trades| && trades[i] == event;
    assert keys[i] == ReadKey(event);
    LastWriterExists(keys, i, |windows|);
    var j :| i <= j < |windows| && keys[j] == keys[i] && LastWriter(keys, j, |windows|);
    assert windows[j] == WindowSize(event) by {
      ReadKeyNamesWindow(event, windows[j]);
    }
  }

  lemma ReadsWindow(event: string, prices: PriceTable, ticker: string, windows: seq<Option<nat>>,
                    answers: Responses, j: nat)
    requires j < |windows| && windows[j] == WindowSize(event) && ReadKey(event) == LastXKey(windows[j])
    requires Lookup(Refreshed(prices, ticker, windows, answers), LastXKey(windows[j]))
               == LastXOrderPurchaseAverage(ticker, OrdersFor(answers, j))
    ensures exists j :: 0 <= j < |windows| && windows[j] == WindowSize(event) &&
              Lookup(Refreshed(prices, ticker, windows, answers), ReadKey(event))
                == LastXOrderPurchaseAverage(ticker, OrdersFor(answers, j))
  {
  }

  lemma InAvgTrades(event: string, enabled: seq<string>)
    requires event in enabled && StartsWith(event, LastXPrefix)
    ensures event in AvgTrades(enabled)
  {
    assert multiset(AvgTrades(enabled))[event] == multiset(enabled)[event];
  }

  /** A scenario whose read key is not the key written for its window size never sees
      its entry change through a refresh, whatever windows are refreshed. */
  lemma UnwrittenKeyUntouched(event: string, prices: PriceTable, ticker: string,
                              windows: seq<Option<nat>>, answers: Responses)
    requires ReadKey(event) != LastXKey(WindowSize(event))
    ensures Lookup(Refreshed(prices, ticker, windows, answers), ReadKey(event)) == Lookup(prices, ReadKey(event))
  {
    var keys := WindowKeys(windows);
    assert ReadKey(event) != OverallKey by {
      assert ReadKey(event)[0] == 'l' && OverallKey[0] == 'o';
    }
    assert ReadKey(event) !in keys by {
      forall i | 0 <= i < |keys|
        ensures keys[i] != ReadKey(event)
      {
        if keys[i] == ReadKey(event) {
          ReadKeyNamesWindow(event, windows[i]);
        }
      }
    }
    RefreshedLookup(prices, ticker, windows, answers);
  }
}
