/**
  The bot as the default configuration builds it: one instance per ticker with the
  scenarios `DAILY_PURCHASE` and `PRICE_LOWER_THAN_AVERAGE_PURCHASE_PRICE` and no
  window sizes, followed through a morning reset and its first quote.
*/
module Scenarios {
  import opened Wrappers
  import opened JsText
  import opened TradeValues
  import opened Pricing
  import opened Triggers
  import opened PurchaseDay

  /** The configuration an instance for `ticker` gets from the parsed environment value
      of `DAILY_ENABLED_TRADES`. */
  function ConfigFor(ticker: string, enabledEnv: Option<string>): (cfg: BotConfig)
    ensures cfg.ticker == ticker && cfg.enabledTrades == DailyEnabledTrades(enabledEnv)
    ensures |cfg.windows| == |AvgTrades(cfg.enabledTrades)|
  {
    var enabled := DailyEnabledTrades(enabledEnv);
    BotConfig(ticker, enabled, LastXAvgTradesQty(AvgTrades(enabled)))
  }

  /** Unset, `DAILY_ENABLED_TRADES` enables the two default scenarios and no window
      sizes: neither default scenario is a last-X scenario. */
  lemma DefaultConfig(ticker: string, enabledEnv: Option<string>)
    requires enabledEnv.None?
    ensures ConfigFor(ticker, enabledEnv) == BotConfig(ticker, [DailyPurchase, PriceLowerThanAverage], [])
  {
    assert DailyEnabledTrades(enabledEnv) == [DailyPurchase, PriceLowerThanAverage] by {
      EnabledTradesDefault();
    }
    AverageIsNotLastX();
    assert !StartsWith(DailyPurchase, LastXPrefix) by {
      assert DailyPurchase[0] == 'D' && LastXPrefix[0] == 'P';
    }
    var trades := AvgTrades([DailyPurchase, PriceLowerThanAverage]);
    assert multiset(trades)[DailyPurchase] == 0 && multiset(trades)[PriceLowerThanAverage] == 0;
  }

  /** A morning with the close guard down, for the default scenarios: `DAILY_PURCHASE`
      has its order in flight and the average-entry-price scenario waits for a quote;
      nothing else is left of the day before. */
  lemma DefaultMorning(cfg: BotConfig, s: BotState)
    requires cfg.enabledTrades == [DailyPurchase, PriceLowerThanAverage] && s.inFlight == multiset{}
    ensures var r := ResetStep(cfg, s, false);
            r.pending == [PriceLowerThanAverage] && r.failures == 0 && !r.pricingInitialized &&
            r.prices == s.prices && r.inFlight == multiset{DailyPurchase}
  {
    RemoveHead(cfg.enabledTrades, DailyPurchase);
    assert cfg.enabledTrades[1..] == [PriceLowerThanAverage];
  }

  /** With no window sizes a refresh writes the overall entry alone. */
  lemma NoWindowsRefreshed(prices: PriceTable, ticker: string, answers: Responses)
    ensures Refreshed(prices, ticker, [], answers) == prices[OverallKey := StockAverageEntryPrice(ticker, answers.positions)]
  {
  }

  /** A quote with one scenario pending and the guard down: the scenario's order is in
      flight exactly when it fires. */
  lemma QuoteOnOne(cfg: BotConfig, s: BotState, ask: Option<real>, answers: Responses)
    requires |s.pending| == 1
    ensures var ready := Ready(cfg, s, answers);
            var r := QuoteStep(cfg, s, ask, false, answers);
            r.prices == ready.prices && r.pricingInitialized &&
            (ShouldFire(s.pending[0], ask, ready.prices) ==>
               r.pending == [] && r.inFlight == s.inFlight + multiset{s.pending[0]}) &&
            (!ShouldFire(s.pending[0], ask, ready.prices) ==> r.pending == s.pending && r.inFlight == s.inFlight)
  {
    var ready := Ready(cfg, s, answers);
    WalkOne(ready.pending, Decision(ask, ready.prices));
  }

  /** The walk over a one-element list. */
  lemma WalkOne(pending: seq<string>, fires: string -> bool)
    requires |pending| == 1
    ensures var w := Walk(pending, fires, 0, 1);
            (fires(pending[0]) ==> w.pending == [] && multiset(w.fired) == multiset{pending[0]}) &&
            (!fires(pending[0]) ==> w.pending == pending && w.fired == [])
  {
    if fires(pending[0]) {
      RemoveHead(pending, pending[0]);
      WalkFireAt(pending, fires, 0, 1);
      assert multiset([pending[0]]) == multiset{pending[0]};
    } else {
      WalkPassAt(pending, fires, 0, 1);
    }
  }

  lemma RemoveHead(list: seq<string>, e: string)
    requires |list| > 0 && list[0] == e
    ensures e in list && RemoveTrigger(list, e) == list[1..]
  {
    assert FirstIndex(list, e) == Some(0);
  }

  /** The first quote of such a morning loads the pricing, finds the position's entry
      price and buys exactly when the ask is truthy (any non-zero value, a negative one
      included) and below it. With the guard down,
      both default scenarios then have an order in flight and nothing is pending. */
  lemma DefaultFirstQuote(cfg: BotConfig, entry: real, ask: real)
    requires cfg.enabledTrades == [DailyPurchase, PriceLowerThanAverage] && cfg.windows == []
    ensures var answers := Responses(Some([Position(cfg.ticker, Some(entry))]), []);
            var r := QuoteStep(cfg, ResetStep(cfg, Initial(cfg), false), Some(ask), false, answers);
            r.prices == map[OverallKey := Some(entry)] && r.pricingInitialized &&
            (ask != 0.0 && ask < entry ==> r.pending == [] && r.inFlight == multiset{DailyPurchase} + multiset{PriceLowerThanAverage}) &&
            (ask == 0.0 || ask >= entry ==> r.pending == [PriceLowerThanAverage] && r.inFlight == multiset{DailyPurchase})
  {
    var answers := Responses(Some([Position(cfg.ticker, Some(entry))]), []);
    var s := ResetStep(cfg, Initial(cfg), false);
    DefaultMorning(cfg, Initial(cfg));
    var ready := Ready(cfg, s, answers);
    assert ready.prices == map[OverallKey := Some(entry)] by {
      assert IsFirstFor(answers.positions.value, cfg.ticker, 0);
      assert StockAverageEntryPrice(cfg.ticker, answers.positions) == Some(entry);
      NoWindowsRefreshed(s.prices, cfg.ticker, answers);
    }
    assert ShouldFire(PriceLowerThanAverage, Some(ask), ready.prices) <==> ask != 0.0 && ask < entry by {
      AverageFires(Some(ask), ready.prices);
    }
    QuoteOnOne(cfg, s, Some(ask), answers);
  }
}
