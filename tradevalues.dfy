/**
  The configuration values read once at start-up: the list of traded tickers, the
  enabled trade scenarios, the "last X orders" scenarios among them and their window
  sizes X. Each environment value is `None` when the variable is not set.
*/
module TradeValues {
  import opened Wrappers
  import opened JsText

  const DefaultStockList := "VOO"
  /** The scenario that buys once per day at the first quote. */
  const DailyPurchase := "DAILY_PURCHASE"
  /** The scenario that buys when the ask is below the position's average entry price. */
  const PriceLowerThanAverage := "PRICE_LOWER_THAN_AVERAGE_PURCHASE_PRICE"
  const DefaultEnabledTrades := DailyPurchase + "," + PriceLowerThanAverage

  /** The name prefix of the scenarios that compare against an average of recent orders. */
  const LastXPrefix := "PRICE_LOWER_THAN_LAST"

  /** `s.split` on the regular expression `\s*,\s*`. The separator match starts at the
      maximal run of white space in front of a comma and runs greedily over the white
      space after it, so the piece before a comma loses its trailing white space and the
      scan resumes behind the white space that follows the comma. */
  function SplitList(s: string): (pieces: seq<string>)
    ensures |pieces| == Occurrences(s, ',') + 1
    decreases |s|
  {
    match FirstIndex(s, ',')
    case None =>
      OccurrencesNone(s, ',');
      [s]
    case Some(k) =>
      var next := TrimStart(s[k + 1..]);
      CountAfterFirst(s, ',', k);
      TrimStartKeepsCount(s[k + 1..], ',');
      var tail := SplitList(next);
      [TrimEnd(s[..k])] + tail
  }

  /** `pieces.join(",")`. */
  function JoinComma(pieces: seq<string>): string {
    JoinWith(pieces, ',')
  }

  /** The text that one match of the separator `\s*,\s*` consumed besides the comma. */
  datatype Gap = Gap(before: string, after: string)

  /** The pieces with the separators between them: `pieces[0] + before + "," + after + ...`. */
  function Interleave(pieces: seq<string>, gaps: seq<Gap>): string
    requires |pieces| == |gaps| + 1
    decreases |gaps|
  {
    if gaps == [] then pieces[0]
    else pieces[0] + gaps[0].before + [','] + gaps[0].after + Interleave(pieces[1..], gaps[1..])
  }

  /** The white space each separator match of `SplitList` consumed. */
  function SeparatorGaps(s: string): (gaps: seq<Gap>)
    ensures |gaps| == Occurrences(s, ',')
    decreases |s|
  {
    match FirstIndex(s, ',')
    case None =>
      OccurrencesNone(s, ',');
      []
    case Some(k) =>
      var rest := s[k + 1..];
      var next := TrimStart(rest);
      CountAfterFirst(s, ',', k);
      TrimStartKeepsCount(rest, ',');
      [Gap(s[|TrimEnd(s[..k])|..k], rest[..LeadingSpaces(rest)])] + SeparatorGaps(next)
  }

  /** Separators that consumed nothing but their comma. */
  function BareCommas(n: nat): (gaps: seq<Gap>)
    ensures |gaps| == n && forall i :: 0 <= i < n ==> gaps[i] == Gap([], [])
  {
    seq(n, _ => Gap([], []))
  }

  /** A separator that consumed only white space. */
  predicate SpaceOnly(g: Gap) {
    AllSpace(g.before) && AllSpace(g.after)
  }

  /** Each separator consumed only white space. */
  lemma {:induction false} SeparatorGapsShape(s: string)
    ensures forall i :: 0 <= i < |SeparatorGaps(s)| ==> SpaceOnly(SeparatorGaps(s)[i])
    decreases |s|
  {
    match FirstIndex(s, ',')
    case None =>
    case Some(k) =>
      var rest := s[k + 1..];
      var next := TrimStart(rest);
      var g := Gap(s[|TrimEnd(s[..k])|..k], rest[..LeadingSpaces(rest)]);
      SeparatorGapsAt(s, k);
      assert SpaceOnly(g) by {
        TrailingSpacesRun(s[..k]);
        LeadingSpacesRun(rest);
      }
      SeparatorGapsShape(next);
      assert forall i :: 0 < i < |[g] + SeparatorGaps(next)| ==> ([g] + SeparatorGaps(next))[i] == SeparatorGaps(next)[i - 1];
  }

  /** `SeparatorGaps` at the first comma. */
  lemma SeparatorGapsAt(s: string, k: nat)
    requires FirstIndex(s, ',') == Some(k)
    ensures SeparatorGaps(s) ==
              [Gap(s[|TrimEnd(s[..k])|..k], s[k + 1..][..LeadingSpaces(s[k + 1..])])] + SeparatorGaps(TrimStart(s[k + 1..]))
  {
  }

  /** Splitting loses nothing but white space next to a comma: the input is the pieces
      interleaved with the white space-only separators, and joining the pieces with ","
      gives the same text with that white space left out. */
  lemma SplitListRoundTrip(s: string)
    ensures Interleave(SplitList(s), SeparatorGaps(s)) == s
    ensures forall i :: 0 <= i < |SeparatorGaps(s)| ==> SpaceOnly(SeparatorGaps(s)[i])
    ensures JoinComma(SplitList(s)) == Interleave(SplitList(s), BareCommas(|SeparatorGaps(s)|))
  {
    InterleaveGaps(s);
    SeparatorGapsShape(s);
    JoinIsBareInterleave(SplitList(s));
  }

  lemma {:induction false} InterleaveGaps(s: string)
    ensures Interleave(SplitList(s), SeparatorGaps(s)) == s
    decreases |s|
  {
    match FirstIndex(s, ',')
    case None =>
    case Some(k) =>
      var rest := s[k + 1..];
      var l := LeadingSpaces(rest);
      var next := rest[l..];
      var head := TrimEnd(s[..k]);
      var m := |head|;
      var g := Gap(s[m..k], rest[..l]);
      InterleaveGaps(next);
      SplitListAt(s, k);
      SeparatorGapsAt(s, k);
      InterleaveCons(head, SplitList(next), g, SeparatorGaps(next));
      assert head == s[..m];
      Glue(s, k, m, l);
  }

  /** `s` cut before `m`, at the comma at `k` and `l` characters after it. */
  lemma Glue(s: string, k: nat, m: nat, l: nat)
    requires m <= k < |s| && s[k] == ',' && l <= |s| - k - 1
    ensures s == s[..m] + s[m..k] + [','] + s[k + 1..][..l] + s[k + 1..][l..]
  {
    assert s == s[..k] + [','] + s[k + 1..];
    assert s[..k] == s[..m] + s[m..k];
    assert s[k + 1..] == s[k + 1..][..l] + s[k + 1..][l..];
  }

  lemma InterleaveCons(head: string, tail: seq<string>, g: Gap, gaps: seq<Gap>)
    requires |tail| == |gaps| + 1
    ensures Interleave([head] + tail, [g] + gaps) == head + g.before + [','] + g.after + Interleave(tail, gaps)
  {
    assert ([head] + tail)[1..] == tail;
    assert ([g] + gaps)[1..] == gaps;
  }

  lemma {:induction false} JoinIsBareInterleave(pieces: seq<string>)
    requires |pieces| > 0
    ensures JoinComma(pieces) == Interleave(pieces, BareCommas(|pieces| - 1))
    decreases |pieces|
  {
    if |pieces| > 1 {
      JoinIsBareInterleave(pieces[1..]);
      assert BareCommas(|pieces| - 1)[1..] == BareCommas(|pieces| - 2);
    }
  }

  /** Every piece except the first starts without white space, and every piece except the
      last ends without it: the separator took all the white space around each comma. */
  lemma {:induction false} SplitListTrimmed(s: string)
    ensures forall i :: 0 < i < |SplitList(s)| ==> StartsClean(SplitList(s)[i])
    ensures forall i :: 0 <= i < |SplitList(s)| - 1 ==> EndsClean(SplitList(s)[i])
    decreases |s|
  {
    match FirstIndex(s, ',')
    case None =>
    case Some(k) =>
      var next := TrimStart(s[k + 1..]);
      var head, tail := TrimEnd(s[..k]), SplitList(next);
      SplitListAt(s, k);
      assert EndsClean(head) by {
        TrimEndLast(s[..k]);
      }
      assert StartsClean(tail[0]) by {
        TrimStartFirst(s[k + 1..]);
        SplitListFirst(next);
      }
      SplitListTrimmed(next);
      ConsClean(head, tail);
  }

  lemma ConsClean(head: string, tail: seq<string>)
    requires |tail| > 0 && EndsClean(head) && StartsClean(tail[0])
    requires forall i :: 0 < i < |tail| ==> StartsClean(tail[i])
    requires forall i :: 0 <= i < |tail| - 1 ==> EndsClean(tail[i])
    ensures forall i :: 0 < i < |[head] + tail| ==> StartsClean(([head] + tail)[i])
    ensures forall i :: 0 <= i < |[head] + tail| - 1 ==> EndsClean(([head] + tail)[i])
  {
  }

  /** The first piece starts where the input does. */
  lemma SplitListFirst(s: string)
    ensures SplitList(s)[0] == [] || (s != [] && SplitList(s)[0][0] == s[0])
  {
    match FirstIndex(s, ',')
    case None =>
    case Some(k) =>
      TrailingSpacesRun(s[..k]);
  }

  /** Pieces of the shape `SplitList` produces. */
  predicate IsSplitShape(pieces: seq<string>) {
    && |pieces| > 0
    && (forall i :: 0 <= i < |pieces| ==> ',' !in pieces[i])
    && (forall i :: 0 < i < |pieces| ==> StartsClean(pieces[i]))
    && (forall i :: 0 <= i < |pieces| - 1 ==> EndsClean(pieces[i]))
  }

  /** No piece contains a comma: the split happens at every comma. */
  lemma {:induction false} SplitListCommaFree(s: string)
    ensures forall i :: 0 <= i < |SplitList(s)| ==> ',' !in SplitList(s)[i]
    decreases |s|
  {
    match FirstIndex(s, ',')
    case None =>
    case Some(k) =>
      var head, next := TrimEnd(s[..k]), TrimStart(s[k + 1..]);
      SplitListAt(s, k);
      SplitListCommaFree(next);
      assert ',' !in head by {
        assert forall j :: 0 <= j < |head| ==> head[j] == s[j];
      }
      ConsCommaFree(head, SplitList(next));
  }

  lemma ConsCommaFree(head: string, tail: seq<string>)
    requires ',' !in head && forall i :: 0 <= i < |tail| ==> ',' !in tail[i]
    ensures forall i :: 0 <= i < |[head] + tail| ==> ',' !in ([head] + tail)[i]
  {
    forall i | 0 < i < |[head] + tail|
      ensures ',' !in ([head] + tail)[i]
    {
      assert ([head] + tail)[i] == tail[i - 1];
    }
  }

  /** What `SplitList` returns always has the shape `SplitListOfJoin` takes back, so
      splitting, joining with "," and splitting again gives the same pieces. */
  lemma SplitListShape(s: string)
    ensures IsSplitShape(SplitList(s))
    ensures SplitList(JoinComma(SplitList(s))) == SplitList(s)
  {
    SplitListCommaFree(s);
    SplitListTrimmed(s);
    SplitListOfJoin(SplitList(s));
  }

  lemma JoinStartsClean(pieces: seq<string>)
    requires |pieces| > 0 && StartsClean(pieces[0])
    ensures StartsClean(JoinComma(pieces))
  {
    if |pieces| > 1 {
      assert JoinComma(pieces) == pieces[0] + [','] + JoinComma(pieces[1..]);
    }
  }

  /** Joining pieces of that shape with "," and splitting again gives them back. */
  lemma {:induction false} SplitListOfJoin(pieces: seq<string>)
    requires IsSplitShape(pieces)
    ensures SplitList(JoinComma(pieces)) == pieces
    decreases |pieces|
  {
    if |pieces| == 1 {
      assert ',' !in pieces[0];
      HeadTail(pieces);
    } else {
      assert IsSplitShape(pieces[1..]);
      SplitListOfJoin(pieces[1..]);
      SplitListOfJoinStep(pieces);
    }
  }

  /** One comma of `SplitListOfJoin`: the first piece comes off, the rest is split again. */
  lemma SplitListOfJoinStep(pieces: seq<string>)
    requires IsSplitShape(pieces) && |pieces| > 1
    requires SplitList(JoinComma(pieces[1..])) == pieces[1..]
    ensures SplitList(JoinComma(pieces)) == pieces
  {
    var head, tail := pieces[0], pieces[1..];
    var rest := JoinComma(tail);
    var s := JoinComma(pieces);
    assert s == head + [','] + rest;
    assert FirstIndex(s, ',') == Some(|head|) by {
      assert ',' !in head;
      FirstIndexAt(head, rest, ',');
    }
    assert s[..|head|] == head && s[|head| + 1..] == rest;
    assert TrimEnd(head) == head by {
      TrimEndIdentity(head);
    }
    assert TrimStart(rest) == rest by {
      JoinStartsClean(tail);
      TrimStartIdentity(rest);
    }
    SplitListAt(s, |head|);
    HeadTail(pieces);
  }

  /** A non-empty sequence is its first element followed by the rest. */
  lemma HeadTail<T>(p: seq<T>)
    requires |p| > 0
    ensures p == [p[0]] + p[1..]
    ensures |p| == 1 ==> p == [p[0]]
  {
  }

  /** `SplitList` at the first comma. */
  lemma SplitListAt(s: string, k: nat)
    requires FirstIndex(s, ',') == Some(k)
    ensures SplitList(s) == [TrimEnd(s[..k])] + SplitList(TrimStart(s[k + 1..]))
  {
  }

  /** `STOCK_LIST`: the environment value (default "VOO") split into tickers. */
  function StockList(env: Option<string>): seq<string> {
    SplitList(env.GetOr(DefaultStockList))
  }

  /** `DAILY_ENABLED_TRADES`: the environment value split into scenario names. */
  function DailyEnabledTrades(env: Option<string>): seq<string> {
    SplitList(env.GetOr(DefaultEnabledTrades))
  }

  /** With `STOCK_LIST` unset, the bot trades "VOO" alone. */
  lemma StockListDefault()
    ensures StockList(None) == ["VOO"]
  {
    assert StartsClean("VOO") && EndsClean("VOO");
    TrimIdentity("VOO");
  }

  /** With `DAILY_ENABLED_TRADES` unset, the two scenarios are enabled. */
  lemma EnabledTradesDefault()
    ensures DailyEnabledTrades(None) == [DailyPurchase, PriceLowerThanAverage]
  {
    assert ',' !in DailyPurchase && EndsClean(DailyPurchase);
    assert ',' !in PriceLowerThanAverage && StartsClean(PriceLowerThanAverage);
    SplitListOfPair(DailyPurchase, PriceLowerThanAverage);
  }

  /** Two comma-free names joined by a bare comma split back into the two. */
  lemma SplitListOfPair(a: string, b: string)
    requires ',' !in a && ',' !in b && EndsClean(a) && StartsClean(b)
    ensures SplitList(a + "," + b) == [a, b]
  {
    var pieces := [a, b];
    assert IsSplitShape(pieces);
    assert pieces[1..] == [b];
    assert JoinWith(pieces, ',') == a + "," + b;
    SplitListOfJoin(pieces);
  }

  /** `AVG_TRADES`: the enabled scenarios whose name starts with the last-X prefix, in
      their original order and with their duplicates. */
  function AvgTrades(enabled: seq<string>): (r: seq<string>)
    ensures forall i :: 0 <= i < |r| ==> StartsWith(r[i], LastXPrefix)
    ensures forall x :: multiset(r)[x] == if StartsWith(x, LastXPrefix) then multiset(enabled)[x] else 0
    ensures IsSubsequence(r, enabled)
    decreases |enabled|
  {
    if enabled == [] then []
    else
      assert enabled == [enabled[0]] + enabled[1..];
      if StartsWith(enabled[0], LastXPrefix) then [enabled[0]] + AvgTrades(enabled[1..])
      else AvgTrades(enabled[1..])
  }

  /** `+event.split("_")[4]`: the window size named by a last-X scenario, `None` for NaN. */
  function WindowSize(event: string): Option<nat> {
    match Field(event, '_', 4)
    case None => None
    case Some(f) => ToNumber(f)
  }

  /** `LAST_X_AVG_TRADES_QTY`: one window size per last-X scenario, in the same order. */
  function LastXAvgTradesQty(avgTrades: seq<string>): (r: seq<Option<nat>>)
    ensures |r| == |avgTrades|
    ensures forall i :: 0 <= i < |r| ==> r[i] == WindowSize(avgTrades[i])
  {
    seq(|avgTrades|, i requires 0 <= i < |avgTrades| => WindowSize(avgTrades[i]))
  }

  /** A scenario whose fifth underscore field is a canonical numeral N has window size N;
      one with fewer than five fields has none. */
  lemma WindowSizeOfField(event: string)
    ensures Field(event, '_', 4).None? ==> WindowSize(event).None?
    ensures Field(event, '_', 4).Some? && IsCanonicalDecimal(Field(event, '_', 4).value) ==>
              WindowSize(event).Some? && NatToString(WindowSize(event).value) == Field(event, '_', 4).value
  {
    if Field(event, '_', 4).Some? && IsCanonicalDecimal(Field(event, '_', 4).value) {
      NatToStringOfCanonical(Field(event, '_', 4).value);
    }
  }
}
