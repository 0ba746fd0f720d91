# Daily purchase bot: a Dafny model

This project models how the trading bot decides, for one ticker, when to buy ten
dollars of stock. The model covers:

- the per-ticker state of `DailyPurchaseClass` (trading/dailyPurchaseBot.js):
  - the pending scenarios of the day (`totalTradesToday`);
  - the shared failure counter (`totalOrderFailures`);
  - the `pricingInitialized` flag;
  - the table of reference prices (`avg_entry_price`);
- the class-wide close guard `DOUBLE_CHECK_MARKET_CLOSE_BEFORE_ORDER`;
- the parsing of the configuration strings in utils/tradeValues.js.

The modules follow the program:

- `Wrappers`: `Option`. JavaScript's `undefined` and `NaN` are `None`.
- `JsText`: the JavaScript string operations the code relies on:
  - `\s` white space, `trimStart`/`trimEnd`, `indexOf`, `split` on one character and `join`;
  - `${n}` printing and unary `+` on digit strings.
- `TradeValues`: utils/tradeValues.js, as pure functions of the environment strings:
  - the `\s*,\s*` split (with its separators, its round trip and its inverse on well-shaped lists);
  - the defaults;
  - the `PRICE_LOWER_THAN_LAST` filter;
  - the window sizes taken from underscore field 4.
- `Pricing`: the reference prices:
  - the position's entry price;
  - the mean fill price of recent orders;
  - the refresh that writes them into the table, with its last-writer-wins lookup.
- `Triggers`: the firing rules of the quote handler, the key a last-X scenario reads,
  and when that key is the key the refresh writes.
- `PurchaseDay`: the bot as a state machine over values.
  - A purchase attempt is a *begin* step and a later *complete* step. Begin is the
    synchronous `splice` and guard check. Complete is the order's fill or rejection.
  - It also holds the daily reset and the quote step.
  - The quote step walks the **live** pending list, as `forEach` does, rather than a
    copy of it. A scenario that buys is removed before the next index is read, so its
    successor is skipped on that quote. The model proves this against a reference walk
    over the list as it was when the quote arrived.
  - Runs of stimuli within one day bound the re-queues and show that a filled scenario
    stays gone.
- `PurchaseBot`: the classes `MarketCloseGuard` and `DailyPurchaseClass`. Their fields
  are updated in place. Each method is proved to perform exactly one step of
  `PurchaseDay`. `UpdateStockPricing` and `BuyOnQuote` (the `forEach` of
  `handleQuoteChangeForPurchase`) keep the loops of the source, and `Evaluate` is the
  `forEach` callback.
- `Scenarios`: one default instance for any ticker, through its morning reset and its
  first quote.

How the model reads the code:

- The guard test on line 108 is
  `DOUBLE_CHECK_MARKET_CLOSE_BEFORE_ORDER && await !this.alpaca.getClock().is_open`.
  - `getClock()` is called, so the clock request is sent. But the negation applies to
    `is_open` of the returned promise, which is `undefined`, so the awaited value is always
    `true` and the clock's answer is never read.
  - The model therefore reads the raised guard as "abandon": the scenario has already
    left the pending list, no order is sent, no failure is counted and nothing is re-queued.
  - The design intent is "abandon only if the market is closed". The code as written
    never reads the clock's answer, so the model does not take one as input.
- `splice(indexOf(e), 1)` removes the last element when `e` is absent, because
  `indexOf` gives -1. The model says so, although no code path reaches that case.
- The brokerage calls become inputs:
  - `getPositions` and `getOrders` become a `Responses` value (one order list per window
    index; a missing or `None` entry is a failed request);
  - `createOrder` becomes an `Outcome`;
  - the clock's answer is unused. The schedules become the stimuli of `PurchaseDay.Step`
    and the guard's two methods.

## Model

| member | source | states |
|---|---|---|
| JsText.LeadingSpacesRun | utils/tradeValues.js:7 | the leading run a separator match eats is all `\s` white space, and the character after it is not |
| JsText.TrailingSpacesRun | utils/tradeValues.js:7 | the trailing run before a comma is all white space, and the character before it is not |
| JsText.TrimStartFirst | utils/tradeValues.js:7 | what is left after dropping leading white space starts with a non-space character |
| JsText.TrimEndLast | utils/tradeValues.js:7 | what is left after dropping trailing white space ends with a non-space character |
| JsText.FirstIndex | trading/dailyPurchaseBot.js:107 | `indexOf`: `None` exactly when the value is absent, otherwise the position of its first occurrence; the split's comma search and the splice's lookup both use it |
| JsText.SplitOn | trading/dailyPurchaseBot.js:195 | `split("_")` gives one more piece than there are separators; no piece contains one; joining restores the string |
| JsText.Field | trading/dailyPurchaseBot.js:195 | `split(c)[i]` is defined exactly when `i` is below the number of pieces, and holds no separator |
| JsText.NatToString | trading/dailyPurchaseBot.js:132 | definition of `${n}` for a non-negative integer, in plain decimal; NatToStringValue and NatToStringOfCanonical state what it prints |
| JsText.ToNumber | utils/tradeValues.js:28 | definition of unary `+` on a string: trimmed, empty reads as 0, a digit string as its value, anything else as `NaN`; ToNumberOfDigits and ToNumberOfNatToString state it |
| JsText.NatToStringValue | trading/dailyPurchaseBot.js:132 | `${n}` prints a canonical numeral (digits only, no leading zero) whose value is `n` |
| JsText.ToNumberOfDigits | utils/tradeValues.js:28 | unary `+` reads a non-empty digit string as its decimal value |
| JsText.ToNumberOfNatToString | utils/tradeValues.js:28 | reading back a printed number gives the number |
| JsText.NatToStringOfCanonical | utils/tradeValues.js:28 | a canonical numeral reads as its value and prints back to itself |
| TradeValues.SplitList | utils/tradeValues.js:7 | splitting on `\s*,\s*` gives exactly one more piece than there are commas |
| TradeValues.SplitListCommaFree | utils/tradeValues.js:7 | no piece contains a comma |
| TradeValues.SplitListShape | utils/tradeValues.js:7 | the pieces are comma-free and trimmed on their inner sides, and splitting their comma join gives them back: the split is idempotent through `join(",")` |
| TradeValues.SeparatorGapsShape | utils/tradeValues.js:7 | every separator match consumed only white space besides its comma |
| TradeValues.SplitListRoundTrip | utils/tradeValues.js:7 | putting each consumed separator back between the pieces restores the input; joining with bare commas gives the input without the white space around commas |
| TradeValues.SplitListTrimmed | utils/tradeValues.js:7 | every piece after the first starts without white space, and every piece before the last ends without it |
| TradeValues.SplitListFirst | utils/tradeValues.js:7 | the first piece is empty or starts with the input's first character: the split never trims the front of the string (`" ,a"` gives `["", "a"]`) |
| TradeValues.SplitListOfJoin | utils/tradeValues.js:17 | a list of comma-free pieces trimmed on their inner sides splits back out of its comma join unchanged |
| TradeValues.StockList | utils/tradeValues.js:6-7 | definition of `STOCK_LIST`: the environment value, or "VOO" when unset, split on `\s*,\s*`; StockListDefault and the SplitList lemmas state its properties |
| TradeValues.DailyEnabledTrades | utils/tradeValues.js:16-17 | definition of `DAILY_ENABLED_TRADES`: the environment value, or the two default scenarios when unset, split the same way; EnabledTradesDefault states the default |
| TradeValues.WindowSize | utils/tradeValues.js:28 | definition of `+event.split("_")[4]`: no size for a missing field or a non-number; WindowSizeOfField states it |
| TradeValues.StockListDefault | utils/tradeValues.js:6-7 | with `STOCK_LIST` unset the ticker list is `["VOO"]` |
| TradeValues.EnabledTradesDefault | utils/tradeValues.js:16-17 | with `DAILY_ENABLED_TRADES` unset the scenarios are `DAILY_PURCHASE` and `PRICE_LOWER_THAN_AVERAGE_PURCHASE_PRICE` |
| TradeValues.AvgTrades | utils/tradeValues.js:27 | the filter keeps exactly the prefixed names, each with its multiplicity, as a subsequence in order |
| TradeValues.LastXAvgTradesQty | utils/tradeValues.js:28 | one window size per last-X scenario, in order: the numeric value of its field 4 |
| TradeValues.WindowSizeOfField | utils/tradeValues.js:28 | a missing field 4 gives no size; a canonical numeral N gives size N, whose printed form is the field |
| Pricing.LastXKeyNotOverall | trading/dailyPurchaseBot.js:129-132 | no window key is the overall key, so window writes never clobber the overall price |
| Pricing.LastXKey | trading/dailyPurchaseBot.js:132 | definition of the key `last_${x}_order_avg_price`, with "NaN" for a size that is not a number; LastXKeyNotOverall and Triggers.KeyAgreement state its properties |
| Pricing.FindPosition | trading/dailyPurchaseBot.js:146 | `find` returns the first position with the ticker's symbol, and `None` exactly when there is none |
| Pricing.StockAverageEntryPrice | trading/dailyPurchaseBot.js:143-151 | the entry price of the first matching position; `undefined` when the request failed or no position matches |
| Pricing.OrdersOf | trading/dailyPurchaseBot.js:166 | the filter keeps only orders of the ticker, and all of them |
| Pricing.OrdersOfKeeps | trading/dailyPurchaseBot.js:166-169 | the filter keeps each order of the ticker with its multiplicity, drops every other order, and keeps the kept ones in their order, so the mean is over exactly the ticker's fills |
| Pricing.PriceSum | trading/dailyPurchaseBot.js:168 | definition of the `reduce` sum of the fill prices, `NaN` once one is missing; PriceSumDefined and AverageWithin state it |
| Pricing.PriceSumDefined | trading/dailyPurchaseBot.js:168 | the `reduce` sum is a number exactly when every fill price is |
| Pricing.LastXOrderPurchaseAverage | trading/dailyPurchaseBot.js:158-173 | `undefined` on a failed request; `NaN` with no order of the ticker; a number exactly when there are orders of the ticker and all are priced |
| Pricing.AverageWithin | trading/dailyPurchaseBot.js:166-169 | the mean of fill prices all within `[lo, hi]` is itself within `[lo, hi]` |
| Pricing.LastWriterExists | trading/dailyPurchaseBot.js:130-133 | every written key has a last write among the writes |
| Pricing.OverwriteLookup | trading/dailyPurchaseBot.js:130-133 | after the writes, each written key holds the value of its last write and every other key is unchanged |
| Pricing.RefreshedPrefixComplete | trading/dailyPurchaseBot.js:128-133 | the table the loop builds over the overall entry, once every window is written, is the refreshed table |
| Pricing.Refreshed | trading/dailyPurchaseBot.js:127-137 | definition of the refreshed table: the overall entry written first, then one entry per window in order; RefreshedLookup and RefreshedAtLastWriter state what it holds |
| Pricing.RefreshedAtLastWriter | trading/dailyPurchaseBot.js:130-133 | the key of a window that is the last to write it holds that window's average |
| Pricing.RefreshedLookup | trading/dailyPurchaseBot.js:127-137 | after a refresh, the overall key holds the position's price, each window key holds the average of its last window, other keys are untouched |
| Triggers.RulesExclusive | trading/dailyPurchaseBot.js:183-203 | the `switch` case and the `startsWith` test never both hold, so one scenario begins at most one purchase per quote |
| Triggers.ReadKey | trading/dailyPurchaseBot.js:195-196 | definition of the key a last-X scenario reads, with "undefined" for a missing field 4; KeyAgreement and ReadKeyNamesWindow state it |
| Triggers.AverageRule | trading/dailyPurchaseBot.js:184-185 | definition of the `switch` case's test; AverageFires states it |
| Triggers.LastXRule | trading/dailyPurchaseBot.js:193-196 | definition of the `startsWith` branch's test; LastXFires states it |
| Triggers.ShouldFire | trading/dailyPurchaseBot.js:183-203 | definition of a scenario firing: either test holds; RulesExclusive, OthersNeverFire and the NeverFires lemmas state it |
| Triggers.AverageFires | trading/dailyPurchaseBot.js:184-189 | the average-entry scenario fires iff the ask is truthy and strictly below a defined overall price |
| Triggers.LastXFires | trading/dailyPurchaseBot.js:193-199 | a last-X scenario fires iff the ask is truthy and strictly below the defined price under `last_<field 4>_order_avg_price` |
| Triggers.OthersNeverFire | trading/dailyPurchaseBot.js:190-193 | a name that is neither the average-entry scenario nor prefixed never fires on a quote |
| Triggers.DailyPurchaseNeverFires | trading/dailyPurchaseBot.js:183-203 | `DAILY_PURCHASE` never fires on a quote |
| Triggers.FalsyAskNeverFires | trading/dailyPurchaseBot.js:185-196 | no scenario fires without a truthy ask |
| Triggers.MissingReferenceNeverFires | trading/dailyPurchaseBot.js:185-196 | an absent or `NaN` reference never fires |
| Triggers.ToNumberOfNaN | utils/tradeValues.js:28 | the text "NaN" is not a number |
| Triggers.KeyAgreement | utils/tradeValues.js:28 | the key a scenario reads equals the key written for its parsed size iff field 4 exists and is a canonical numeral or "NaN" |
| Triggers.ReadKeyNamesWindow | trading/dailyPurchaseBot.js:195-196 | if the read key is the key written for size `x`, then `x` is the scenario's own parsed size |
| Triggers.LastWindowOf | utils/tradeValues.js:27-28 | an enabled last-X scenario with canonical field 4 reads the key written for its own size, and some configured window of that size is the last to write that key |
| Triggers.ScenarioReadsItsWindow | trading/dailyPurchaseBot.js:130-133 | after a refresh with the configured sizes, an enabled scenario with canonical field 4 reads the average fetched for a window of its own size |
| Triggers.InAvgTrades | utils/tradeValues.js:27 | every enabled last-X scenario survives the filter |
| Triggers.UnwrittenKeyUntouched | trading/dailyPurchaseBot.js:129-132 | a key no window writes is not changed by any refresh |
| PurchaseDay.RemovePresent | trading/dailyPurchaseBot.js:107 | removing a present scenario takes out exactly one copy and keeps the others |
| PurchaseDay.RemoveAbsent | trading/dailyPurchaseBot.js:107 | `splice(-1, 1)` on an absent scenario drops the last element |
| PurchaseDay.RemoveAtOrBefore | trading/dailyPurchaseBot.js:107 | removing the scenario at index i shifts every later element one place left |
| PurchaseDay.RemoveTrigger | trading/dailyPurchaseBot.js:107 | definition of `splice(indexOf(e), 1)`, including the -1 index for an absent scenario; RemovePresent, RemoveAbsent and RemoveAtOrBefore state it |
| PurchaseDay.BeginStep | trading/dailyPurchaseBot.js:105-108 | definition of the synchronous part of a purchase attempt; BeginFacts states it |
| PurchaseDay.CompleteStep | trading/dailyPurchaseBot.js:109-121 | definition of an attempt's completion on a fill or a rejection; CompleteFilled and CompleteRejected state it |
| PurchaseDay.ResetStep | trading/dailyPurchaseBot.js:90-97 | definition of the scheduled reset; ResetForgets and ResetFacts state it |
| PurchaseDay.Walk | trading/dailyPurchaseBot.js:182-204 | definition of `forEach` over the live pending list; WalkBalance, WalkFiring and WalkFollowsVisits state it |
| PurchaseDay.Ready | trading/dailyPurchaseBot.js:180 | definition of the lazy pricing load; QuoteRefreshesLazily states it |
| PurchaseDay.QuoteStep | trading/dailyPurchaseBot.js:179-205 | definition of a quote's whole effect; QuoteRefreshesLazily and QuoteFires state it |
| PurchaseDay.BeginFacts | trading/dailyPurchaseBot.js:107-108 | begin removes one copy before any order; with the guard up nothing is sent, no failure counted, the scenario gone; otherwise one order in flight |
| PurchaseDay.CompleteFilled | trading/dailyPurchaseBot.js:116-117 | a fill re-adds nothing, counts no failure and refreshes the pricing |
| PurchaseDay.CompleteRejected | trading/dailyPurchaseBot.js:119 | a rejection adds exactly one failure and re-appends the scenario iff the new count is below 5 |
| PurchaseDay.ResetForgets | trading/dailyPurchaseBot.js:91-93 | the reset's outcome does not depend on the pending list, counter or flag before it |
| PurchaseDay.ResetFacts | trading/dailyPurchaseBot.js:90-97 | after the reset: counter 0, flag down, pending the enabled list less one `DAILY_PURCHASE` when enabled, which is then in flight unless the guard is up |
| PurchaseDay.Firing | trading/dailyPurchaseBot.js:182-203 | the scenarios that begin a purchase all satisfy the decision |
| PurchaseDay.WalkPastEnd | trading/dailyPurchaseBot.js:182 | indices beyond the current length are passed over |
| PurchaseDay.WalkFireAt | trading/dailyPurchaseBot.js:182-187 | a scenario that fires is evaluated, fired, and removed before the next index |
| PurchaseDay.WalkPassAt | trading/dailyPurchaseBot.js:182-192 | a scenario that does not fire is evaluated and left in place |
| PurchaseDay.WalkBalance | trading/dailyPurchaseBot.js:182-204 | pending after the walk plus the fired scenarios is the pending list before it |
| PurchaseDay.WalkFiring | trading/dailyPurchaseBot.js:182-204 | the fired scenarios are exactly the evaluated ones that satisfy the decision, in order |
| PurchaseDay.Visits | trading/dailyPurchaseBot.js:182 | the reference walk only visits positions of the original list |
| PurchaseDay.PickElements | trading/dailyPurchaseBot.js:182 | the picked scenarios are the original list's entries at the visited positions |
| PurchaseDay.VisitsIncrease | trading/dailyPurchaseBot.js:182 | visited positions strictly increase, so no scenario is evaluated twice |
| PurchaseDay.VisitsSteps | trading/dailyPurchaseBot.js:182 | the reference walk advances two positions after a purchase and one otherwise, until the end |
| PurchaseDay.VisitsNeighbour | trading/dailyPurchaseBot.js:182 | the successor of a scenario that fires is not evaluated on that quote; the successor of one that does not fire is |
| PurchaseDay.WalkFollowsVisits | trading/dailyPurchaseBot.js:182-204 | the live `forEach` evaluates exactly the scenarios the reference walk picks from the list as it was at the quote |
| PurchaseDay.WalkFrom | trading/dailyPurchaseBot.js:182-204 | walking a list that agrees with the original shifted by the removals evaluates what the reference walk picks |
| PurchaseDay.WalkFromFire | trading/dailyPurchaseBot.js:182-198 | at a scenario that buys, the live walk moves on one index while the reference walk skips one position, and both still evaluate the same scenarios |
| PurchaseDay.WalkFromPass | trading/dailyPurchaseBot.js:182-203 | at a scenario that does not buy, both walks move on one position and still evaluate the same scenarios |
| PurchaseDay.ShiftAfterRemove | trading/dailyPurchaseBot.js:107 | after a removal at index i the list still agrees with the original, shifted one more place |
| PurchaseDay.AfterWalkFire | trading/dailyPurchaseBot.js:182-198 | beginning a purchase at index i and walking on from i+1 ends where the walk from i ends |
| PurchaseDay.AfterWalkPass | trading/dailyPurchaseBot.js:182-203 | passing over a scenario that does not fire ends where the walk from i ends |
| PurchaseDay.AfterWalkBeyond | trading/dailyPurchaseBot.js:182 | an index beyond the current length changes nothing |
| PurchaseDay.AfterWalkDone | trading/dailyPurchaseBot.js:182 | the finished walk leaves the state as it is |
| PurchaseDay.QuoteRefreshesLazily | trading/dailyPurchaseBot.js:180 | a quote refreshes only while the flag is down, leaves it up and never changes the counter |
| PurchaseDay.QuoteFires | trading/dailyPurchaseBot.js:179-205 | the evaluated scenarios are the reference walk's; the fired ones satisfy the rule; pending plus fired is the old pending; guard down puts them in flight |
| PurchaseDay.StepKeepsCount | trading/dailyPurchaseBot.js:119 | within a day the counter never decreases, and a rejection raises it by exactly one |
| PurchaseDay.RequeueBound | trading/dailyPurchaseBot.js:119 | starting from `f` failures, a day re-queues at most `4 - f` times |
| PurchaseDay.DailyRequeueBound | trading/dailyPurchaseBot.js:119 | after a reset, at most 4 re-queues happen before the next one |
| PurchaseDay.StepTokens | trading/dailyPurchaseBot.js:105-122 | no step within a day gives a scenario more pending copies plus orders in flight |
| PurchaseDay.RunTokens | trading/dailyPurchaseBot.js:105-122 | the same over any run within a day |
| PurchaseDay.SucceededStaysAbsent | trading/dailyPurchaseBot.js:107-117 | a scenario whose only chance was filled is neither pending nor in flight for the rest of the day |
| PurchaseDay.RefreshKeepsKeys | trading/dailyPurchaseBot.js:127-137 | a refresh only writes the overall key and configured window keys |
| PurchaseDay.StepKeepsKeys | trading/dailyPurchaseBot.js:127-137 | every step keeps the table's keys among those |
| PurchaseDay.MisnamedScenarioNeverFires | trading/dailyPurchaseBot.js:195-196 | a last-X scenario whose read key is not the key written for its size (e.g. "007", a missing field) never fires |
| PurchaseBot.MarketCloseGuard.constructor | trading/dailyPurchaseBot.js:29 | the guard starts down |
| PurchaseBot.MarketCloseGuard.OnMarketOpen | trading/dailyPurchaseBot.js:49-51 | the open callback lowers the guard |
| PurchaseBot.MarketCloseGuard.OnBeforeClose | trading/dailyPurchaseBot.js:60-62 | the pre-close callback raises it |
| PurchaseBot.DailyPurchaseClass.constructor | trading/dailyPurchaseBot.js:14-26 | every enabled scenario pending, no failures, pricing not loaded, empty table |
| PurchaseBot.DailyPurchaseClass.ScheduledReset | trading/dailyPurchaseBot.js:90-97 | the fields end as the reset step of the old state says |
| PurchaseBot.DailyPurchaseClass.BeginBuy | trading/dailyPurchaseBot.js:105-108 | the scenario is spliced out, and an order is sent iff the guard is down; the new state is the begin step |
| PurchaseBot.DailyPurchaseClass.CompleteBuy | trading/dailyPurchaseBot.js:109-121 | a fill refreshes the pricing; a rejection counts and re-queues below the cap; the new state is the complete step |
| PurchaseBot.DailyPurchaseClass.UpdateStockPricing | trading/dailyPurchaseBot.js:127-137 | the table becomes the refresh of the old one, and nothing else changes |
| PurchaseBot.DailyPurchaseClass.HandleQuoteChangeForPurchase | trading/dailyPurchaseBot.js:179-205 | a quote loads the pricing if it is not loaded yet and then walks the list; the fields end in the quote step of the old state |
| PurchaseBot.DailyPurchaseClass.BuyOnQuote | trading/dailyPurchaseBot.js:182-204 | the loop over the live list ends where the walk over the list it started from says: a purchase begun for each scenario reached that fires |
| PurchaseBot.DailyPurchaseClass.Evaluate | trading/dailyPurchaseBot.js:183-202 | the callback begins a purchase exactly when the scenario fires, at most once, and leaves the table as it is |
| Scenarios.ConfigFor | socket/datastream.js:25-27 | an instance gets the ticker, the parsed scenarios and one window size per last-X scenario |
| Scenarios.DefaultConfig | utils/tradeValues.js:16-28 | the default configuration enables the two default scenarios and no window sizes |
| Scenarios.DefaultMorning | trading/dailyPurchaseBot.js:90-97 | the default morning with the guard down: `DAILY_PURCHASE` in flight, the average-entry scenario pending, counter 0 |
| Scenarios.NoWindowsRefreshed | trading/dailyPurchaseBot.js:127-137 | without window sizes a refresh writes the overall entry alone |
| Scenarios.WalkOne | trading/dailyPurchaseBot.js:182-199 | on a one-element list the walk takes the scenario off and buys it iff it fires, and otherwise leaves the list alone |
| Scenarios.QuoteOnOne | trading/dailyPurchaseBot.js:182-199 | with one scenario pending, a quote sends its order iff it fires |
| Scenarios.DefaultFirstQuote | trading/dailyPurchaseBot.js:179-205 | the first default quote loads the entry price and buys iff the ask is truthy (non-zero, negative included) and below it |

## Left out

- The calendar rules of `node-schedule` (hours, minutes, time zone, weekdays) are left
  out. The scheduled jobs are the stimuli `DailyReset` and the guard's two methods,
  delivered in any order.
- The brokerage calls are left out. `getPositions`, `getOrders`, `createOrder` and
  `getClock` become inputs, as described above. The request arguments (`limit: x`,
  side, status) are not modelled; a window's answer is whatever orders the brokerage returns.
- Asynchronous interleaving is left out:
  - A pricing refresh is one atomic step, although its `forEach(async …)` does not await
    the window fetches.
  - Order outcomes arrive as separate later `Completion` stimuli, in any order the run
    chooses.
  - The first quotes of a day may race on the lazy refresh; the model refreshes once.
- JsText.ToNumber: unary `+` is modelled only on trimmed decimal digit strings (and
  the empty string, which reads as 0). Signs, fractions, exponents, hex, `Infinity` and
  fractional window sizes are not numbers in the model.
- Prices are exact reals; JavaScript floating-point rounding in the sum and the division is
  not modelled.
- The after-close `cancelAllOrders` job (trading/dailyPurchaseBot.js:71-77) is a
  brokerage call whose result is only logged. It does not touch the modelled state.
- The `try`/`catch` blocks around `updateStockPricing` and around the last-X check are
  left out:
  - they only log;
  - the two fetch helpers already turn a failed request into `undefined`, which the model
    carries as `None`;
  - a missing underscore field reads as the text "undefined", not as an exception.
- All `console.log` output is left out.
- Several instances are modelled only through the one `MarketCloseGuard` object they
  share. Nothing else passes between instances. The routing of quotes by symbol in
  socket/datastream.js is not part of this model.
- trading/tenDollarStockPurchase.js, trading/voo.js and index.js are not part of this
  model. Nothing in the running program uses the first two, and the last only starts
  the process.
- PurchaseBot.DailyPurchaseClass.BeginBuy: the clock request on line 108 is sent but its
  answer is never read (see above), so the request itself is not modelled.
- JsText.NatToString: prints every `nat` in plain decimal. JavaScript numbers are doubles,
  so above 2^53 unary `+` rounds (field "9007199254740993" reads as 9007199254740992) and
  from 10^21 on `${n}` prints an exponent form ("1e+21"). These are not modelled.
- JsText.NatToStringOfCanonical: holds for JavaScript only below 2^53, since a longer
  numeral reads back rounded (see the line above).
- Triggers.KeyAgreement: the "canonical numeral" direction holds in JavaScript only for
  numerals below 2^53. The reverse direction is stated about the model's digit-only
  `ToNumber`: in JavaScript, field 4 values such as "-5", "1.5" or "Infinity" also read the
  key that is written for them, and the lemma does not cover them.
- Triggers.ScenarioReadsItsWindow: covers window sizes below 2^53 only, for the same reason.
- PurchaseDay.MisnamedScenarioNeverFires: its premise is computed with the digit-only
  `ToNumber`. Field 4 values such as "-5", "1.5" or "Infinity" do read their window's key in
  JavaScript, so such a scenario can fire there.
