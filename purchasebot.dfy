/**
  The class `DailyPurchaseClass` of trading/dailyPurchaseBot.js, as objects whose methods
  update their fields in place, each method proved to perform one step of the state
  machine in module PurchaseDay. The class-wide flag
  `DOUBLE_CHECK_MARKET_CLOSE_BEFORE_ORDER` is one shared `MarketCloseGuard` object that
  every instance holds.
*/
module PurchaseBot {
  import opened Wrappers
  import opened TradeValues
  import opened Pricing
  import opened Triggers
  import opened PurchaseDay

  /** The close guard, set by the scheduled callbacks at market open and before close. */
  class MarketCloseGuard {
    var doubleCheckBeforeOrder: bool

    /** The flag starts down. */
    constructor ()
      ensures !doubleCheckBeforeOrder
    {
      doubleCheckBeforeOrder := false;
    }

    /** The callback at market open lowers the flag. */
    method OnMarketOpen()
      modifies this
      ensures !doubleCheckBeforeOrder
    {
      doubleCheckBeforeOrder := false;
    }

    /** The callback just before the close raises it. */
    method OnBeforeClose()
      modifies this
      ensures doubleCheckBeforeOrder
    {
      doubleCheckBeforeOrder := true;
    }
  }

  class DailyPurchaseClass {
    const stockTicker: string
    const dailyEnabledTrades: seq<string>
    const lastXAvgTradesQty: seq<Option<nat>>
    const closeGuard: MarketCloseGuard

    var totalTradesToday: seq<string>
    var totalOrderFailures: nat
    var pricingInitialized: bool
    var avgEntryPrice: PriceTable
    /** The scenarios of the orders sent and not yet answered. */
    ghost var inFlight: multiset<string>

    function Config(): BotConfig {
      BotConfig(stockTicker, dailyEnabledTrades, lastXAvgTradesQty)
    }

    ghost function State(): BotState
      reads this
    {
      BotState(totalTradesToday, totalOrderFailures, pricingInitialized, avgEntryPrice, inFlight)
    }

    /** A new instance: every enabled scenario pending, no failures, no pricing yet. */
    constructor (ticker: string, enabledTrades: seq<string>, windows: seq<Option<nat>>, guard: MarketCloseGuard)
      ensures Config() == BotConfig(ticker, enabledTrades, windows) && closeGuard == guard
      ensures State() == Initial(Config())
    {
      stockTicker := ticker;
      dailyEnabledTrades := enabledTrades;
      lastXAvgTradesQty := windows;
      closeGuard := guard;
      pricingInitialized := false;
      totalTradesToday := enabledTrades;
      totalOrderFailures := 0;
      avgEntryPrice := map[];
      inFlight := multiset{};
    }

    /** The job scheduled every weekday morning. */
    method ScheduledReset()
      modifies this
      ensures State() == ResetStep(Config(), old(State()), closeGuard.doubleCheckBeforeOrder)
    {
      totalTradesToday := dailyEnabledTrades;
      totalOrderFailures := 0;
      pricingInitialized := false;
      if DailyPurchase in totalTradesToday {
        var _ := BeginBuy(DailyPurchase);
      }
    }

    /** `buyTenDollarStock(event)` up to the order: the scenario leaves the pending list;
        with the close guard up the attempt stops there, otherwise the order is sent. */
    method BeginBuy(event: string) returns (orderSent: bool)
      modifies this
      ensures orderSent == !closeGuard.doubleCheckBeforeOrder
      ensures State() == BeginStep(old(State()), event, closeGuard.doubleCheckBeforeOrder)
    {
      totalTradesToday := RemoveTrigger(totalTradesToday, event);
      if closeGuard.doubleCheckBeforeOrder {
        return false;
      }
      inFlight := inFlight + multiset{event};
      orderSent := true;
    }

    /** `buyTenDollarStock(event)` once the order's outcome is known. */
    method CompleteBuy(event: string, outcome: Outcome)
      requires event in inFlight
      modifies this
      ensures State() == CompleteStep(Config(), old(State()), event, outcome)
    {
      inFlight := inFlight - multiset{event};
      match outcome
      case Filled(answers) =>
        UpdateStockPricing(answers);
      case Rejected =>
        totalOrderFailures := totalOrderFailures + 1;
        if totalOrderFailures < FailureCap {
          totalTradesToday := totalTradesToday + [event];
        }
    }

    /** `updateStockPricing`: the overall entry first, then one entry per window size. */
    method UpdateStockPricing(answers: Responses)
      modifies this
      ensures avgEntryPrice == Refreshed(old(avgEntryPrice), stockTicker, lastXAvgTradesQty, answers)
      ensures totalTradesToday == old(totalTradesToday) && totalOrderFailures == old(totalOrderFailures)
      ensures pricingInitialized == old(pricingInitialized) && inFlight == old(inFlight)
    {
      var table := avgEntryPrice[OverallKey := StockAverageEntryPrice(stockTicker, answers.positions)];
      ghost var start := table;
      var i := 0;
      while i < |lastXAvgTradesQty|
        modifies {}
        invariant i <= |lastXAvgTradesQty|
        invariant table == RefreshedPrefix(start, stockTicker, lastXAvgTradesQty, answers, i)
      {
        var average := LastXOrderPurchaseAverage(stockTicker, OrdersFor(answers, i));
        assert RefreshedPrefix(start, stockTicker, lastXAvgTradesQty, answers, i + 1)
                 == table[LastXKey(lastXAvgTradesQty[i]) := average];
        table := table[LastXKey(lastXAvgTradesQty[i]) := average];
        i := i + 1;
      }
      RefreshedPrefixComplete(avgEntryPrice, stockTicker, lastXAvgTradesQty, answers);
      avgEntryPrice := table;
    }

    /** `handleQuoteChangeForPurchase(quote)` with `quote.AskPrice` = `ask`; `answers` is
        what the brokerage answers if the pricing has to be loaded first. */
    method HandleQuoteChangeForPurchase(ask: Option<real>, answers: Responses)
      modifies this
      ensures State() == QuoteStep(Config(), old(State()), ask, closeGuard.doubleCheckBeforeOrder, answers)
    {
      if !pricingInitialized {
        UpdateStockPricing(answers);
        pricingInitialized := true;
      }
      assert State() == Ready(Config(), old(State()), answers);
      BuyOnQuote(ask);
    }

    /** The `forEach` over the live pending list: every scenario the walk reaches and
        that fires on this ask begins its purchase. */
    method BuyOnQuote(ask: Option<real>)
      modifies this
      ensures State() == AfterWalk(old(State()),
                                   Walk(old(totalTradesToday), Decision(ask, avgEntryPrice), 0, |old(totalTradesToday)|),
                                   closeGuard.doubleCheckBeforeOrder)
    {
      ghost var start := State();
      ghost var fires := Decision(ask, avgEntryPrice);
      ghost var guard := closeGuard.doubleCheckBeforeOrder;
      var len := |totalTradesToday|;
      var i := 0;
      while i < len
        invariant i <= len
        invariant avgEntryPrice == start.prices
        invariant AfterWalk(State(), Walk(totalTradesToday, fires, i, len), guard)
                    == AfterWalk(start, Walk(start.pending, fires, 0, len), guard)
      {
        if i < |totalTradesToday| {
          ghost var before := State();
          var fired := Evaluate(totalTradesToday[i], ask);
          if fired {
            AfterWalkFire(before, fires, guard, i, len);
          } else {
            AfterWalkPass(before, fires, guard, i, len);
          }
        } else {
          AfterWalkBeyond(State(), fires, guard, i, len);
        }
        i := i + 1;
      }
      AfterWalkDone(State(), fires, guard, len);
    }

    /** The callback for one scenario: the `switch` case, then the `startsWith` test,
        each beginning a purchase when its rule holds. */
    method Evaluate(event: string, ask: Option<real>) returns (fired: bool)
      modifies this
      ensures fired == ShouldFire(event, ask, avgEntryPrice) && avgEntryPrice == old(avgEntryPrice)
      ensures State() == if fired then BeginStep(old(State()), event, closeGuard.doubleCheckBeforeOrder) else old(State())
    {
      RulesExclusive(event, ask, avgEntryPrice);
      fired := false;
      if AverageRule(event, ask, avgEntryPrice) {
        var _ := BeginBuy(event);
        fired := true;
      }
      if LastXRule(event, ask, avgEntryPrice) {
        var _ := BeginBuy(event);
        fired := true;
      }
    }
  }
}
