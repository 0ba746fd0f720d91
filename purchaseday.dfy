/**
  One `DailyPurchaseClass` instance as a state machine on values. The state is the
  pending scenario list (`totalTradesToday`), the failure counter, the pricing flag, the
  reference-price table, and the orders sent and not yet answered. A purchase attempt
  is split into its synchronous beginning (the removal and the close-guard check) and
  its completion (the order's outcome), which arrives later as a separate step.
*/
module PurchaseDay {
  import opened Wrappers
  import opened TradeValues
  import opened Pricing
  import opened Triggers
  import opened JsText

  /** `++totalOrderFailures < 5`: a failed scenario is re-queued only while the new count
      is below this cap. */
  const FailureCap := 5

  /** What an instance is built with: its ticker, the enabled scenarios, and the window
      sizes of the last-X averages. None of them changes afterwards. */
  datatype BotConfig = BotConfig(ticker: string, enabledTrades: seq<string>, windows: seq<Option<nat>>)

  /** `inFlight` holds the scenario of every order sent whose outcome has not arrived. */
  datatype BotState = BotState(pending: seq<string>, failures: nat, pricingInitialized: bool,
                               prices: PriceTable, inFlight: multiset<string>)

  /** The brokerage's answer to an order: filled, with what the brokerage answers during
      the pricing refresh that follows, or rejected. */
  datatype Outcome = Filled(answers: Responses) | Rejected

  /** The day's starting values: every enabled scenario pending, no failures, pricing
      not yet loaded. */
  function FreshDay(cfg: BotConfig, prices: PriceTable, inFlight: multiset<string>): BotState {
    BotState(cfg.enabledTrades, 0, false, prices, inFlight)
  }

  /** The constructor: the day's starting values with an empty table. */
  function Initial(cfg: BotConfig): BotState {
    FreshDay(cfg, map[], multiset{})
  }

  /** `list.splice(list.indexOf(e), 1)`: the first occurrence of `e` goes; for an absent
      `e` the index is -1, which `splice` reads as the last element; an empty list stays
      empty. */
  function RemoveTrigger(list: seq<string>, e: string): seq<string> {
    match FirstIndex(list, e)
    case Some(i) => list[..i] + list[i + 1..]
    case None => if list == [] then [] else list[..|list| - 1]
  }

  /** Removing a present scenario takes out exactly one copy of it and keeps the rest. */
  lemma RemovePresent(list: seq<string>, e: string)
    requires e in list
    ensures |RemoveTrigger(list, e)| == |list| - 1
    ensures multiset(RemoveTrigger(list, e)) == multiset(list) - multiset{e}
  {
    var i := FirstIndex(list, e).value;
    assert list == list[..i] + [e] + list[i + 1..];
  }

  /** Removing an absent scenario drops the last pending scenario instead. */
  lemma RemoveAbsent(list: seq<string>, e: string)
    requires e !in list && list != []
    ensures RemoveTrigger(list, e) == list[..|list| - 1]
  {
  }

  /** Removing the scenario found at index `i` shifts everything after `i` one place
      left, whichever copy is the first. */
  lemma RemoveAtOrBefore(list: seq<string>, i: nat)
    requires i < |list|
    ensures |RemoveTrigger(list, list[i])| == |list| - 1
    ensures forall k :: i <= k < |list| - 1 ==> RemoveTrigger(list, list[i])[k] == list[k + 1]
  {
    var j := FirstIndex(list, list[i]).value;
    assert j <= i;
  }

  /** A scenario's outstanding chances today: its pending copies plus its orders in flight. */
  function Tokens(s: BotState, e: string): nat {
    multiset(s.pending)[e] + s.inFlight[e]
  }

  /** The synchronous part of `buyTenDollarStock(event)`: the scenario leaves the pending
      list, then with the close guard up the attempt ends; otherwise the order is sent. */
  function BeginStep(s: BotState, e: string, guard: bool): BotState {
    var removed := s.(pending := RemoveTrigger(s.pending, e));
    if guard then removed else removed.(inFlight := removed.inFlight + multiset{e})
  }

  /** Beginning an attempt takes one copy of the scenario off the pending list before any
      order exists. With the guard up nothing is sent, no failure is counted and the
      scenario is gone for the day; otherwise exactly one order for it is in flight. */
  lemma BeginFacts(s: BotState, e: string, guard: bool)
    requires e in s.pending
    ensures var r := BeginStep(s, e, guard);
            multiset(r.pending) == multiset(s.pending) - multiset{e} &&
            r.failures == s.failures && r.pricingInitialized == s.pricingInitialized && r.prices == s.prices &&
            (guard ==> r.inFlight == s.inFlight && Tokens(r, e) + 1 == Tokens(s, e)) &&
            (!guard ==> r.inFlight == s.inFlight + multiset{e} && Tokens(r, e) == Tokens(s, e))
  {
    RemovePresent(s.pending, e);
  }

  /** The rest of `buyTenDollarStock(event)`, once the order's outcome arrives. A fill
      refreshes the pricing; a rejection counts a failure and re-queues the scenario
      while the new count is below the cap. */
  function CompleteStep(cfg: BotConfig, s: BotState, e: string, outcome: Outcome): BotState
    requires e in s.inFlight
  {
    var done := s.(inFlight := s.inFlight - multiset{e});
    match outcome
    case Filled(answers) => done.(prices := Refreshed(s.prices, cfg.ticker, cfg.windows, answers))
    case Rejected =>
      var count := s.failures + 1;
      done.(failures := count, pending := if count < FailureCap then s.pending + [e] else s.pending)
  }

  /** A filled order is not re-queued and costs no failure; the scenario loses the
      chance the order used. Pricing is refreshed, the flag untouched. */
  lemma CompleteFilled(cfg: BotConfig, s: BotState, e: string, answers: Responses)
    requires e in s.inFlight
    ensures var r := CompleteStep(cfg, s, e, Filled(answers));
            r.pending == s.pending && r.failures == s.failures && r.pricingInitialized == s.pricingInitialized &&
            r.prices == Refreshed(s.prices, cfg.ticker, cfg.windows, answers) &&
            Tokens(r, e) + 1 == Tokens(s, e)
  {
  }

  /** A rejected order counts exactly one failure. The scenario goes back to the end of
      the pending list exactly when the new count is below 5; from the fifth failure on
      the pending list no longer changes. */
  lemma CompleteRejected(cfg: BotConfig, s: BotState, e: string)
    requires e in s.inFlight
    ensures var r := CompleteStep(cfg, s, e, Rejected);
            r.failures == s.failures + 1 && r.prices == s.prices && r.pricingInitialized == s.pricingInitialized &&
            (s.failures + 1 < FailureCap ==> r.pending == s.pending + [e] && Tokens(r, e) == Tokens(s, e)) &&
            (s.failures + 1 >= FailureCap ==> r.pending == s.pending && Tokens(r, e) + 1 == Tokens(s, e))
  {
    var r := CompleteStep(cfg, s, e, Rejected);
    if s.failures + 1 < FailureCap {
      assert multiset(r.pending) == multiset(s.pending) + multiset{e};
    }
  }

  /** The scheduled reset: a fresh copy of the enabled list, no failures, pricing to be
      reloaded; then, only if `DAILY_PURCHASE` is enabled, one attempt for it. */
  function ResetStep(cfg: BotConfig, s: BotState, guard: bool): BotState {
    var day := FreshDay(cfg, s.prices, s.inFlight);
    if DailyPurchase in day.pending then BeginStep(day, DailyPurchase, guard) else day
  }

  /** What the reset restores does not depend on the pending list, the counter or the
      flag before it; the table and the orders in flight carry over. */
  lemma ResetForgets(cfg: BotConfig, s: BotState, t: BotState, guard: bool)
    requires s.prices == t.prices && s.inFlight == t.inFlight
    ensures ResetStep(cfg, s, guard) == ResetStep(cfg, t, guard)
  {
  }

  /** After a reset the counter is 0 and the flag down; with `DAILY_PURCHASE` enabled one
      copy of it has been taken off the fresh list and, with the guard down, exactly one
      order for it is in flight; without it the pending list is the enabled list. */
  lemma ResetFacts(cfg: BotConfig, s: BotState, guard: bool)
    ensures var r := ResetStep(cfg, s, guard);
            r.failures == 0 && !r.pricingInitialized && r.prices == s.prices &&
            (DailyPurchase !in cfg.enabledTrades ==> r.pending == cfg.enabledTrades && r.inFlight == s.inFlight) &&
            (DailyPurchase in cfg.enabledTrades ==>
               multiset(r.pending) == multiset(cfg.enabledTrades) - multiset{DailyPurchase} &&
               r.inFlight == if guard then s.inFlight else s.inFlight + multiset{DailyPurchase})
  {
    if DailyPurchase in cfg.enabledTrades {
      BeginFacts(FreshDay(cfg, s.prices, s.inFlight), DailyPurchase, guard);
    }
  }

  /** The outcome of one walk over the pending list: the list afterwards, the scenarios
      evaluated, and those that began a purchase, each in walk order. */
  datatype WalkResult = WalkResult(pending: seq<string>, evaluated: seq<string>, fired: seq<string>)

  /** `pending.forEach(callback)` from index `i` on, `len` being the length when the walk
      started. The callback reads the current list, so an index at or beyond its current
      length is passed over, and a purchase begun by the callback removes its scenario
      (`splice` in `buyTenDollarStock`) before the next index is read. Nothing the walk
      does changes the table, so whether a scenario buys is one fixed decision `fires`. */
  function Walk(pending: seq<string>, fires: string -> bool, i: nat, len: nat): WalkResult
    decreases len - i
  {
    if i >= len then WalkResult(pending, [], [])
    else if i >= |pending| then Walk(pending, fires, i + 1, len)
    else
      var e := pending[i];
      if fires(e) then
        var rest := Walk(RemoveTrigger(pending, e), fires, i + 1, len);
        WalkResult(rest.pending, [e] + rest.evaluated, [e] + rest.fired)
      else
        var rest := Walk(pending, fires, i + 1, len);
        WalkResult(rest.pending, [e] + rest.evaluated, rest.fired)
  }

  /** The evaluated scenarios that buy, in order. */
  function Firing(events: seq<string>, fires: string -> bool): (r: seq<string>)
    ensures forall k :: 0 <= k < |r| ==> fires(r[k])
  {
    if events == [] then []
    else if fires(events[0]) then [events[0]] + Firing(events[1..], fires)
    else Firing(events[1..], fires)
  }

  /** A walk that has passed the end of the current list evaluates nothing more. */
  lemma {:induction false} WalkPastEnd(pending: seq<string>, fires: string -> bool, i: nat, len: nat)
    requires i >= |pending|
    ensures Walk(pending, fires, i, len) == WalkResult(pending, [], [])
    decreases len - i
  {
    if i < len {
      WalkPastEnd(pending, fires, i + 1, len);
    }
  }

  lemma WalkFireAt(pending: seq<string>, fires: string -> bool, i: nat, len: nat)
    requires i < len && i < |pending| && fires(pending[i])
    ensures var rest := Walk(RemoveTrigger(pending, pending[i]), fires, i + 1, len);
            Walk(pending, fires, i, len) == WalkResult(rest.pending, [pending[i]] + rest.evaluated, [pending[i]] + rest.fired)
  {
  }

  lemma WalkPassAt(pending: seq<string>, fires: string -> bool, i: nat, len: nat)
    requires i < len && i < |pending| && !fires(pending[i])
    ensures var rest := Walk(pending, fires, i + 1, len);
            Walk(pending, fires, i, len) == WalkResult(rest.pending, [pending[i]] + rest.evaluated, rest.fired)
  {
  }

  /** Every purchase a walk begins takes its scenario off the pending list, and nothing
      else leaves it. */
  lemma {:induction false} WalkBalance(pending: seq<string>, fires: string -> bool, i: nat, len: nat)
    ensures var r := Walk(pending, fires, i, len);
            multiset(r.pending) + multiset(r.fired) == multiset(pending)
    decreases len - i
  {
    if i < len && i < |pending| {
      var e := pending[i];
      if fires(e) {
        var next := RemoveTrigger(pending, e);
        WalkFireAt(pending, fires, i, len);
        WalkBalance(next, fires, i + 1, len);
        RemovePresent(pending, e);
        var rest := Walk(next, fires, i + 1, len);
        assert multiset([e] + rest.fired) == multiset{e} + multiset(rest.fired);
        MultisetShift(multiset(rest.pending), multiset(rest.fired), multiset(next), multiset(pending), e);
      } else {
        WalkPassAt(pending, fires, i, len);
        WalkBalance(pending, fires, i + 1, len);
      }
    } else if i < len {
      WalkPastEnd(pending, fires, i, len);
    }
  }

  lemma MultisetShift<T>(rest: multiset<T>, fired: multiset<T>, next: multiset<T>, before: multiset<T>, e: T)
    requires rest + fired == next && next == before - multiset{e} && e in before
    ensures rest + (multiset{e} + fired) == before
  {
    assert before == next + multiset{e};
  }

  /** Exactly the evaluated scenarios that satisfy the decision begin a purchase. */
  lemma {:induction false} WalkFiring(pending: seq<string>, fires: string -> bool, i: nat, len: nat)
    ensures var r := Walk(pending, fires, i, len);
            r.fired == Firing(r.evaluated, fires)
    decreases len - i
  {
    if i < len && i < |pending| {
      var e := pending[i];
      if fires(e) {
        var next := RemoveTrigger(pending, e);
        WalkFireAt(pending, fires, i, len);
        WalkFiring(next, fires, i + 1, len);
        var rest := Walk(next, fires, i + 1, len);
        assert ([e] + rest.evaluated)[1..] == rest.evaluated;
      } else {
        WalkPassAt(pending, fires, i, len);
        WalkFiring(pending, fires, i + 1, len);
        var rest := Walk(pending, fires, i + 1, len);
        assert ([e] + rest.evaluated)[1..] == rest.evaluated;
      }
    } else if i < len {
      WalkPastEnd(pending, fires, i, len);
    }
  }

  /** The reference walk over the list as it was when the quote arrived: the positions
      evaluated from `p` on. After a scenario that buys, the one right after it is not
      evaluated; after one that does not, the next one is. */
  function Visits(orig: seq<string>, fires: string -> bool, p: nat): (v: seq<nat>)
    ensures forall k :: 0 <= k < |v| ==> p <= v[k] < |orig|
    decreases |orig| - p
  {
    if p >= |orig| then []
    else [p] + Visits(orig, fires, if fires(orig[p]) then p + 2 else p + 1)
  }

  lemma VisitsAt(orig: seq<string>, fires: string -> bool, p: nat)
    requires p < |orig|
    ensures Visits(orig, fires, p) == [p] + Visits(orig, fires, if fires(orig[p]) then p + 2 else p + 1)
  {
  }

  /** The scenarios at the given positions. */
  function Pick(orig: seq<string>, v: seq<nat>): (r: seq<string>)
    requires forall k :: 0 <= k < |v| ==> v[k] < |orig|
    ensures |r| == |v|
  {
    if v == [] then [] else [orig[v[0]]] + Pick(orig, v[1..])
  }

  lemma {:induction false} PickElements(orig: seq<string>, v: seq<nat>)
    requires forall k :: 0 <= k < |v| ==> v[k] < |orig|
    ensures forall k :: 0 <= k < |v| ==> Pick(orig, v)[k] == orig[v[k]]
  {
    if v != [] {
      PickElements(orig, v[1..]);
      assert forall k :: 1 <= k < |v| ==> Pick(orig, v)[k] == Pick(orig, v[1..])[k - 1];
    }
  }

  lemma PickCons(orig: seq<string>, p: nat, v: seq<nat>)
    requires p < |orig| && forall k :: 0 <= k < |v| ==> v[k] < |orig|
    ensures Pick(orig, [p] + v) == [orig[p]] + Pick(orig, v)
  {
    assert ([p] + v)[1..] == v;
  }

  /** The positions the reference walk evaluates strictly increase: no scenario is
      evaluated twice. */
  lemma {:induction false} VisitsIncrease(orig: seq<string>, fires: string -> bool, p: nat)
    ensures var v := Visits(orig, fires, p);
            forall a, b :: 0 <= a < b < |v| ==> v[a] < v[b]
    decreases |orig| - p
  {
    if p < |orig| {
      var q := if fires(orig[p]) then p + 2 else p + 1;
      VisitsIncrease(orig, fires, q);
      var v := Visits(orig, fires, p);
      assert forall k :: 1 <= k < |v| ==> v[k] == Visits(orig, fires, q)[k - 1];
    }
  }

  /** The reference walk starts at `p`, moves two positions on after a scenario that
      buys and one after a scenario that does not, and stops at the end of the list. */
  lemma {:induction false} VisitsSteps(orig: seq<string>, fires: string -> bool, p: nat)
    ensures var v := Visits(orig, fires, p);
            (p < |orig| ==> |v| > 0 && v[0] == p) &&
            (forall k :: 0 <= k < |v| - 1 ==> v[k + 1] == v[k] + if fires(orig[v[k]]) then 2 else 1) &&
            (|v| > 0 ==> v[|v| - 1] + (if fires(orig[v[|v| - 1]]) then 2 else 1) >= |orig|)
    decreases |orig| - p
  {
    if p < |orig| {
      var q := if fires(orig[p]) then p + 2 else p + 1;
      VisitsSteps(orig, fires, q);
      VisitsAt(orig, fires, p);
      var w := Visits(orig, fires, q);
      var v := Visits(orig, fires, p);
      assert v == [p] + w;
      assert forall k :: 1 <= k < |v| ==> v[k] == w[k - 1];
    }
  }

  /** The skipped neighbour: when the scenario at an evaluated position buys, the next
      position is not evaluated; when it does not, the next position (if any) is. */
  lemma VisitsNeighbour(orig: seq<string>, fires: string -> bool, p: nat)
    ensures var v := Visits(orig, fires, p);
            forall k :: 0 <= k < |v| ==>
              (fires(orig[v[k]]) ==> v[k] + 1 !in v) &&
              (!fires(orig[v[k]]) && v[k] + 1 < |orig| ==> v[k] + 1 in v)
  {
    var v := Visits(orig, fires, p);
    VisitsSteps(orig, fires, p);
    VisitsIncrease(orig, fires, p);
    forall k | 0 <= k < |v|
      ensures fires(orig[v[k]]) ==> v[k] + 1 !in v
      ensures !fires(orig[v[k]]) && v[k] + 1 < |orig| ==> v[k] + 1 in v
    {
      if fires(orig[v[k]]) {
        SkippedAfter(v, k, 2);
      } else if v[k] + 1 < |orig| {
        assert k + 1 < |v|;
        assert v[k + 1] == v[k] + 1;
      }
    }
  }

  /** In a strictly increasing sequence whose step after `k` is `d >= 2`, the value
      right after `v[k]` does not occur. */
  lemma SkippedAfter(v: seq<nat>, k: nat, d: nat)
    requires k < |v| && d >= 2
    requires forall a, b :: 0 <= a < b < |v| ==> v[a] < v[b]
    requires k + 1 < |v| ==> v[k + 1] == v[k] + d
    ensures v[k] + 1 !in v
  {
    forall m | 0 <= m < |v|
      ensures v[m] != v[k] + 1
    {
      if m > k + 1 {
        assert v[m] > v[k + 1];
      }
    }
  }

  /** The live walk evaluates exactly the scenarios the reference walk picks out of the
      list as it was when the walk started. */
  lemma WalkFollowsVisits(pending: seq<string>, fires: string -> bool)
    ensures Walk(pending, fires, 0, |pending|).evaluated == Pick(pending, Visits(pending, fires, 0))
  {
    WalkFrom(pending, pending, fires, 0, 0);
  }

  /** From index `i` on, the live list is the original one from position `i + f` on. */
  predicate Aligned(orig: seq<string>, pending: seq<string>, i: nat, f: nat) {
    |pending| + f == |orig| && forall k :: i <= k < |pending| ==> pending[k] == orig[k + f]
  }

  /** The live walk at index `i` after `f` purchases: everything from index `i` on is the
      original list from position `i + f` on. */
  lemma {:induction false} WalkFrom(orig: seq<string>, pending: seq<string>, fires: string -> bool, i: nat, f: nat)
    requires Aligned(orig, pending, i, f)
    ensures Walk(pending, fires, i, |orig|).evaluated == Pick(orig, Visits(orig, fires, i + f))
    decreases |orig| - i, 1
  {
    if i >= |pending| {
      WalkPastEnd(pending, fires, i, |orig|);
    } else if fires(pending[i]) {
      WalkFromFire(orig, pending, fires, i, f);
    } else {
      WalkFromPass(orig, pending, fires, i, f);
    }
  }

  /** One step of `WalkFrom` at a scenario that buys: the reference walk skips a position. */
  lemma {:induction false} WalkFromFire(orig: seq<string>, pending: seq<string>, fires: string -> bool, i: nat, f: nat)
    requires Aligned(orig, pending, i, f) && i < |pending| && fires(pending[i])
    ensures Walk(pending, fires, i, |orig|).evaluated == Pick(orig, Visits(orig, fires, i + f))
    decreases |orig| - i, 0
  {
    ShiftAfterRemove(orig, pending, i, f);
    WalkFrom(orig, RemoveTrigger(pending, pending[i]), fires, i + 1, f + 1);
    var e := pending[i];
    var later := Visits(orig, fires, i + f + 2);
    WalkFireAt(pending, fires, i, |orig|);
    assert Walk(pending, fires, i, |orig|).evaluated
             == [e] + Walk(RemoveTrigger(pending, e), fires, i + 1, |orig|).evaluated;
    assert fires(orig[i + f]);
    VisitsAt(orig, fires, i + f);
    assert Visits(orig, fires, i + f) == [i + f] + later;
    PickCons(orig, i + f, later);
  }

  /** One step of `WalkFrom` at a scenario that does not buy. */
  lemma {:induction false} WalkFromPass(orig: seq<string>, pending: seq<string>, fires: string -> bool, i: nat, f: nat)
    requires Aligned(orig, pending, i, f) && i < |pending| && !fires(pending[i])
    ensures Walk(pending, fires, i, |orig|).evaluated == Pick(orig, Visits(orig, fires, i + f))
    decreases |orig| - i, 0
  {
    assert Aligned(orig, pending, i + 1, f);
    WalkFrom(orig, pending, fires, i + 1, f);
    WalkPassAt(pending, fires, i, |orig|);
    VisitsAt(orig, fires, i + f);
    PickCons(orig, i + f, Visits(orig, fires, i + f + 1));
  }

  /** Removing the scenario at index `i` keeps the correspondence, one position further on. */
  lemma ShiftAfterRemove(orig: seq<string>, pending: seq<string>, i: nat, f: nat)
    requires Aligned(orig, pending, i, f) && i < |pending|
    ensures Aligned(orig, RemoveTrigger(pending, pending[i]), i + 1, f + 1)
  {
    var next := RemoveTrigger(pending, pending[i]);
    RemoveAtOrBefore(pending, i);
    forall k | i + 1 <= k < |next|
      ensures next[k] == orig[k + f + 1]
    {
      assert next[k] == pending[k + 1];
    }
  }

  /** The pricing the walk sees: refreshed and marked loaded if it was not loaded yet. */
  function Ready(cfg: BotConfig, s: BotState, answers: Responses): BotState {
    if s.pricingInitialized then s
    else s.(prices := Refreshed(s.prices, cfg.ticker, cfg.windows, answers), pricingInitialized := true)
  }

  /** The firing rule against a fixed ask price and table. */
  function Decision(ask: Option<real>, prices: PriceTable): string -> bool {
    e => ShouldFire(e, ask, prices)
  }

  /** The walk a quote makes over the pending list. */
  function QuoteWalk(cfg: BotConfig, s: BotState, ask: Option<real>, answers: Responses): WalkResult {
    var ready := Ready(cfg, s, answers);
    Walk(ready.pending, Decision(ask, ready.prices), 0, |ready.pending|)
  }

  /** A walk's purchases begun: the list it leaves, and with the guard down one order in
      flight per scenario that fired; with the guard up none. */
  function AfterWalk(s: BotState, w: WalkResult, guard: bool): BotState {
    s.(pending := w.pending, inFlight := s.inFlight + if guard then multiset{} else multiset(w.fired))
  }

  /** Beginning the purchase for the scenario at index `i` and walking on from `i + 1`
      ends where walking from `i` ends: the step a live loop takes. */
  lemma AfterWalkFire(st: BotState, fires: string -> bool, guard: bool, i: nat, len: nat)
    requires i < len && i < |st.pending| && fires(st.pending[i])
    ensures var next := BeginStep(st, st.pending[i], guard);
            AfterWalk(next, Walk(next.pending, fires, i + 1, len), guard)
              == AfterWalk(st, Walk(st.pending, fires, i, len), guard)
  {
    var e := st.pending[i];
    var next := BeginStep(st, e, guard);
    WalkFireAt(st.pending, fires, i, len);
    var rest := Walk(next.pending, fires, i + 1, len);
    assert multiset([e] + rest.fired) == multiset{e} + multiset(rest.fired);
    if !guard {
      assert st.inFlight + multiset{e} + multiset(rest.fired) == st.inFlight + (multiset{e} + multiset(rest.fired));
    }
  }

  /** Passing over a scenario that does not buy. */
  lemma AfterWalkPass(st: BotState, fires: string -> bool, guard: bool, i: nat, len: nat)
    requires i < len && i < |st.pending| && !fires(st.pending[i])
    ensures AfterWalk(st, Walk(st.pending, fires, i + 1, len), guard)
              == AfterWalk(st, Walk(st.pending, fires, i, len), guard)
  {
    WalkPassAt(st.pending, fires, i, len);
  }

  /** An index beyond the current length is skipped, and the walk ends at `len`. */
  lemma AfterWalkBeyond(st: BotState, fires: string -> bool, guard: bool, i: nat, len: nat)
    requires i < len && i >= |st.pending|
    ensures Walk(st.pending, fires, i + 1, len) == Walk(st.pending, fires, i, len)
  {
  }

  lemma AfterWalkDone(st: BotState, fires: string -> bool, guard: bool, len: nat)
    ensures AfterWalk(st, Walk(st.pending, fires, len, len), guard) == st
  {
    assert st.inFlight + multiset{} == st.inFlight;
  }

  /** `handleQuoteChangeForPurchase`: load the pricing if it is not loaded yet and mark it
      loaded, then walk the pending list against the ask price. */
  function QuoteStep(cfg: BotConfig, s: BotState, ask: Option<real>, guard: bool, answers: Responses): BotState {
    AfterWalk(Ready(cfg, s, answers), QuoteWalk(cfg, s, ask, answers), guard)
  }

  /** A quote refreshes the pricing only while it is not loaded, and leaves it marked
      loaded; the counter never changes on a quote. */
  lemma QuoteRefreshesLazily(cfg: BotConfig, s: BotState, ask: Option<real>, guard: bool, answers: Responses)
    ensures var r := QuoteStep(cfg, s, ask, guard, answers);
            r.pricingInitialized && r.failures == s.failures &&
            (s.pricingInitialized ==> r.prices == s.prices) &&
            (!s.pricingInitialized ==> r.prices == Refreshed(s.prices, cfg.ticker, cfg.windows, answers))
  {
  }

  /** On a quote, exactly the evaluated scenarios that satisfy the firing rule against
      the loaded pricing begin a purchase; they are the ones the reference walk over the
      pending list picks out; each leaves the pending list and, with the guard down, has
      one order in flight. */
  lemma QuoteFires(cfg: BotConfig, s: BotState, ask: Option<real>, guard: bool, answers: Responses)
    ensures var ready := Ready(cfg, s, answers);
            var w := QuoteWalk(cfg, s, ask, answers);
            var r := QuoteStep(cfg, s, ask, guard, answers);
            w.evaluated == Pick(s.pending, Visits(s.pending, Decision(ask, ready.prices), 0)) &&
            w.fired == Firing(w.evaluated, Decision(ask, ready.prices)) &&
            (forall k :: 0 <= k < |w.fired| ==> ShouldFire(w.fired[k], ask, ready.prices)) &&
            multiset(r.pending) + multiset(w.fired) == multiset(s.pending) &&
            r.inFlight == s.inFlight + (if guard then multiset{} else multiset(w.fired))
  {
    var ready := Ready(cfg, s, answers);
    var fires := Decision(ask, ready.prices);
    WalkBalance(ready.pending, fires, 0, |ready.pending|);
    WalkFiring(ready.pending, fires, 0, |ready.pending|);
    WalkFollowsVisits(ready.pending, fires);
    var w := QuoteWalk(cfg, s, ask, answers);
    assert forall k :: 0 <= k < |w.fired| ==> fires(w.fired[k]);
  }

  /** Everything that can happen to an instance: the scheduled reset, a quote, or the
      outcome of an order sent earlier. The close guard's value at the time is part of
      the reset and the quote, the brokerage's answers part of the quote and the fill. */
  datatype Stimulus =
    | DailyReset(guard: bool)
    | Quote(ask: Option<real>, guard: bool, answers: Responses)
    | Completion(event: string, outcome: Outcome)

  /** An outcome can only arrive for an order in flight. */
  predicate Enabled(s: BotState, st: Stimulus) {
    st.Completion? ==> st.event in s.inFlight
  }

  function Step(cfg: BotConfig, s: BotState, st: Stimulus): BotState
    requires Enabled(s, st)
  {
    match st
    case DailyReset(guard) => ResetStep(cfg, s, guard)
    case Quote(ask, guard, answers) => QuoteStep(cfg, s, ask, guard, answers)
    case Completion(e, outcome) => CompleteStep(cfg, s, e, outcome)
  }

  /** Every stimulus of the sequence can be delivered in turn. */
  predicate IsRun(cfg: BotConfig, s: BotState, sts: seq<Stimulus>)
    decreases |sts|
  {
    sts == [] || (Enabled(s, sts[0]) && IsRun(cfg, Step(cfg, s, sts[0]), sts[1..]))
  }

  function Run(cfg: BotConfig, s: BotState, sts: seq<Stimulus>): BotState
    requires IsRun(cfg, s, sts)
    decreases |sts|
  {
    if sts == [] then s else Run(cfg, Step(cfg, s, sts[0]), sts[1..])
  }

  /** No reset happens: the stimuli all belong to one day. */
  predicate SameDay(sts: seq<Stimulus>) {
    forall k :: 0 <= k < |sts| ==> !sts[k].DailyReset?
  }

  /** How many times a rejected scenario goes back on the pending list during the run. */
  function Requeues(cfg: BotConfig, s: BotState, sts: seq<Stimulus>): nat
    requires IsRun(cfg, s, sts)
    decreases |sts|
  {
    if sts == [] then 0
    else
      var here := if sts[0].Completion? && sts[0].outcome.Rejected? && s.failures + 1 < FailureCap then 1 else 0;
      here + Requeues(cfg, Step(cfg, s, sts[0]), sts[1..])
  }

  /** Within a day the counter never goes down. */
  lemma StepKeepsCount(cfg: BotConfig, s: BotState, st: Stimulus)
    requires Enabled(s, st) && !st.DailyReset?
    ensures Step(cfg, s, st).failures >= s.failures
    ensures st.Completion? && st.outcome.Rejected? ==> Step(cfg, s, st).failures == s.failures + 1
  {
    if st.Quote? {
      QuoteRefreshesLazily(cfg, s, st.ask, st.guard, st.answers);
    }
  }

  /** The failure cap: within a day, starting from `failures` failures, rejected
      scenarios are re-queued at most `4 - failures` times, because the counter is shared
      by all scenarios of the ticker. */
  lemma {:induction false} RequeueBound(cfg: BotConfig, s: BotState, sts: seq<Stimulus>)
    requires IsRun(cfg, s, sts) && SameDay(sts)
    ensures Requeues(cfg, s, sts) <= if s.failures < FailureCap - 1 then FailureCap - 1 - s.failures else 0
    decreases |sts|
  {
    if sts != [] {
      var next := Step(cfg, s, sts[0]);
      assert SameDay(sts[1..]) by {
        assert forall k :: 0 <= k < |sts| - 1 ==> sts[1..][k] == sts[k + 1];
      }
      StepKeepsCount(cfg, s, sts[0]);
      RequeueBound(cfg, next, sts[1..]);
    }
  }

  /** After the reset, at most 4 re-queues happen before the next one. */
  lemma DailyRequeueBound(cfg: BotConfig, s: BotState, guard: bool, sts: seq<Stimulus>)
    requires IsRun(cfg, ResetStep(cfg, s, guard), sts) && SameDay(sts)
    ensures Requeues(cfg, ResetStep(cfg, s, guard), sts) <= FailureCap - 1
  {
    ResetFacts(cfg, s, guard);
    RequeueBound(cfg, ResetStep(cfg, s, guard), sts);
  }

  /** Within a day no step gives a scenario a new chance: pending copies plus orders in
      flight never grow. */
  lemma StepTokens(cfg: BotConfig, s: BotState, st: Stimulus, e: string)
    requires Enabled(s, st) && !st.DailyReset?
    ensures Tokens(Step(cfg, s, st), e) <= Tokens(s, e)
  {
    match st
    case Quote(ask, guard, answers) =>
      QuoteFires(cfg, s, ask, guard, answers);
    case Completion(x, outcome) =>
      if outcome.Rejected? {
        var r := CompleteStep(cfg, s, x, Rejected);
        if s.failures + 1 < FailureCap {
          assert multiset(r.pending) == multiset(s.pending) + multiset{x};
        }
      }
  }

  lemma {:induction false} RunTokens(cfg: BotConfig, s: BotState, sts: seq<Stimulus>, e: string)
    requires IsRun(cfg, s, sts) && SameDay(sts)
    ensures Tokens(Run(cfg, s, sts), e) <= Tokens(s, e)
    decreases |sts|
  {
    if sts != [] {
      assert SameDay(sts[1..]) by {
        assert forall k :: 0 <= k < |sts| - 1 ==> sts[1..][k] == sts[k + 1];
      }
      StepTokens(cfg, s, sts[0], e);
      RunTokens(cfg, Step(cfg, s, sts[0]), sts[1..], e);
    }
  }

  /** A scenario whose only chance of the day was a filled order is neither pending nor
      in flight for the rest of the day, so no quote can buy for it again. */
  lemma SucceededStaysAbsent(cfg: BotConfig, s: BotState, e: string, answers: Responses, sts: seq<Stimulus>)
    requires e in s.inFlight && Tokens(s, e) == 1
    requires IsRun(cfg, CompleteStep(cfg, s, e, Filled(answers)), sts) && SameDay(sts)
    ensures e !in Run(cfg, CompleteStep(cfg, s, e, Filled(answers)), sts).pending
    ensures e !in Run(cfg, CompleteStep(cfg, s, e, Filled(answers)), sts).inFlight
  {
    CompleteFilled(cfg, s, e, answers);
    RunTokens(cfg, CompleteStep(cfg, s, e, Filled(answers)), sts, e);
  }

  /** The table only ever holds the overall entry and the keys of the configured windows. */
  predicate KeysWritten(cfg: BotConfig, s: BotState) {
    forall k :: k in s.prices ==> k == OverallKey || k in WindowKeys(cfg.windows)
  }

  lemma RefreshKeepsKeys(cfg: BotConfig, prices: PriceTable, answers: Responses)
    requires forall k :: k in prices ==> k == OverallKey || k in WindowKeys(cfg.windows)
    ensures forall k :: k in Refreshed(prices, cfg.ticker, cfg.windows, answers) ==>
              k == OverallKey || k in WindowKeys(cfg.windows)
  {
    RefreshedLookup(prices, cfg.ticker, cfg.windows, answers);
  }

  /** Every step keeps the table's keys among the written ones. */
  lemma StepKeepsKeys(cfg: BotConfig, s: BotState, st: Stimulus)
    requires Enabled(s, st) && KeysWritten(cfg, s)
    ensures KeysWritten(cfg, Step(cfg, s, st))
  {
    match st
    case DailyReset(guard) =>
      ResetFacts(cfg, s, guard);
    case Quote(ask, guard, answers) =>
      RefreshKeepsKeys(cfg, s.prices, answers);
      QuoteRefreshesLazily(cfg, s, ask, guard, answers);
    case Completion(x, outcome) =>
      if outcome.Filled? {
        RefreshKeepsKeys(cfg, s.prices, outcome.answers);
      }
  }

  /** A last-X scenario whose read key differs from the key written for its window size
      (a missing field 4, or one such as "007" or " 5") never buys: no step ever writes
      the entry it reads. */
  lemma MisnamedScenarioNeverFires(cfg: BotConfig, s: BotState, e: string, ask: Option<real>)
    requires KeysWritten(cfg, s) && StartsWith(e, LastXPrefix)
    requires ReadKey(e) != LastXKey(WindowSize(e))
    ensures !ShouldFire(e, ask, s.prices)
  {
    assert ReadKey(e) !in s.prices by {
      assert ReadKey(e) != OverallKey by {
        assert ReadKey(e)[0] == 'l' && OverallKey[0] == 'o';
      }
      forall i | 0 <= i < |cfg.windows|
        ensures WindowKeys(cfg.windows)[i] != ReadKey(e)
      {
        if WindowKeys(cfg.windows)[i] == ReadKey(e) {
          ReadKeyNamesWindow(e, cfg.windows[i]);
        }
      }
    }
    LastXFires(e, ask, s.prices);
  }
}
