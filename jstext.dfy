/**
  The pieces of JavaScript string and array semantics that the configuration parser
  and the purchase bot rely on: the white-space class `\s`, trimming, `indexOf`,
  `split` on a one-character separator, `startsWith`, the unary `+` coercion of a
  string to a number (for decimal digit strings) and the printing of a non-negative
  integer inside a template literal.
*/
module JsText {
  import opened Wrappers

  /** A JavaScript white-space or line-terminator character: what `\s` matches in a
      regular expression, and what `Number(...)` strips from both ends of a string. */
  predicate IsSpace(c: char) {
    var n := c as int;
    n == 0x09 || n == 0x0A || n == 0x0B || n == 0x0C || n == 0x0D || n == 0x20 ||
    n == 0xA0 || n == 0x1680 || 0x2000 <= n <= 0x200A || n == 0x2028 || n == 0x2029 ||
    n == 0x202F || n == 0x205F || n == 0x3000 || n == 0xFEFF
  }

  predicate AllSpace(s: string) {
    forall i :: 0 <= i < |s| ==> IsSpace(s[i])
  }

  /** The length of the run of white space at the start of `s`. */
  function LeadingSpaces(s: string): (n: nat)
    ensures n <= |s|
    decreases |s|
  {
    if s != [] && IsSpace(s[0]) then 1 + LeadingSpaces(s[1..]) else 0
  }

  /** The run `LeadingSpaces` counts is all white space, and the character behind it is
      not. */
  lemma {:induction false} LeadingSpacesRun(s: string)
    ensures forall i :: 0 <= i < LeadingSpaces(s) ==> IsSpace(s[i])
    ensures LeadingSpaces(s) < |s| ==> !IsSpace(s[LeadingSpaces(s)])
    decreases |s|
  {
    if s != [] && IsSpace(s[0]) {
      LeadingSpacesRun(s[1..]);
    }
  }

  /** The length of the run of white space at the end of `s`. */
  function TrailingSpaces(s: string): (n: nat)
    ensures n <= |s|
    decreases |s|
  {
    if s != [] && IsSpace(s[|s| - 1]) then 1 + TrailingSpaces(s[..|s| - 1]) else 0
  }

  /** The run `TrailingSpaces` counts is all white space, and the character in front of
      it is not. */
  lemma {:induction false} TrailingSpacesRun(s: string)
    ensures forall i :: |s| - TrailingSpaces(s) <= i < |s| ==> IsSpace(s[i])
    ensures TrailingSpaces(s) < |s| ==> !IsSpace(s[|s| - TrailingSpaces(s) - 1])
    decreases |s|
  {
    if s != [] && IsSpace(s[|s| - 1]) {
      TrailingSpacesRun(s[..|s| - 1]);
    }
  }

  /** `s` without its leading white space (JavaScript's `trimStart`). */
  function TrimStart(s: string): string {
    s[LeadingSpaces(s)..]
  }

  /** `s` without its trailing white space (JavaScript's `trimEnd`). */
  function TrimEnd(s: string): string {
    s[..|s| - TrailingSpaces(s)]
  }

  /** `s` does not start with white space. */
  predicate StartsClean(s: string) {
    s == [] || !IsSpace(s[0])
  }

  /** `s` does not end with white space. */
  predicate EndsClean(s: string) {
    s == [] || !IsSpace(s[|s| - 1])
  }

  /** What `TrimStart` leaves starts with a non-space character. */
  lemma TrimStartFirst(s: string)
    ensures StartsClean(TrimStart(s))
  {
    LeadingSpacesRun(s);
  }

  /** What `TrimEnd` leaves ends with a non-space character. */
  lemma TrimEndLast(s: string)
    ensures EndsClean(TrimEnd(s))
  {
    TrailingSpacesRun(s);
  }

  /** JavaScript's `trim`. */
  function Trim(s: string): string {
    TrimEnd(TrimStart(s))
  }

  /** `s.indexOf(x)` on a string or an array: the first position holding `x`, with
      `None` for -1. */
  function FirstIndex<T(==)>(s: seq<T>, x: T): (r: Option<nat>)
    ensures r.None? <==> x !in s
    ensures r.Some? ==> r.value < |s| && s[r.value] == x && forall j :: 0 <= j < r.value ==> s[j] != x
  {
    if s == [] then None
    else if s[0] == x then Some(0)
    else
      match FirstIndex(s[1..], x)
      case None => None
      case Some(k) => Some(k + 1)
  }

  /** `a` is what remains of `b` after deleting some of its elements. */
  predicate IsSubsequence<T(==)>(a: seq<T>, b: seq<T>)
    decreases |b|
  {
    if a == [] then true
    else if b == [] then false
    else (a[0] == b[0] && IsSubsequence(a[1..], b[1..])) || IsSubsequence(a, b[1..])
  }

  /** The pieces joined with `c` between neighbours (`pieces.join(c)`). */
  function JoinWith(pieces: seq<string>, c: char): string
    decreases |pieces|
  {
    if pieces == [] then []
    else if |pieces| == 1 then pieces[0]
    else pieces[0] + [c] + JoinWith(pieces[1..], c)
  }

  /** `s.split(c)` for a one-character separator: one more piece than there are `c`s,
      no piece contains `c`, and joining the pieces with `c` gives `s` back. */
  function SplitOn(s: string, c: char): (pieces: seq<string>)
    ensures |pieces| == Occurrences(s, c) + 1
    ensures forall i :: 0 <= i < |pieces| ==> c !in pieces[i]
    ensures JoinWith(pieces, c) == s
    decreases |s|
  {
    match FirstIndex(s, c)
    case None =>
      OccurrencesNone(s, c);
      [s]
    case Some(k) =>
      var rest := SplitOn(s[k + 1..], c);
      SplitCons(s, c, k, rest);
      [s[..k]] + rest
  }

  /** The piece before the first `c`, followed by the split of what comes after it. */
  lemma SplitCons(s: string, c: char, k: nat, rest: seq<string>)
    requires k < |s| && s[k] == c && forall j :: 0 <= j < k ==> s[j] != c
    requires |rest| == Occurrences(s[k + 1..], c) + 1
    requires forall i :: 0 <= i < |rest| ==> c !in rest[i]
    requires JoinWith(rest, c) == s[k + 1..]
    ensures var pieces := [s[..k]] + rest;
            |pieces| == Occurrences(s, c) + 1 &&
            (forall i :: 0 <= i < |pieces| ==> c !in pieces[i]) &&
            JoinWith(pieces, c) == s
  {
    CountAfterFirst(s, c, k);
    var pieces := [s[..k]] + rest;
    assert c !in s[..k];
    forall i | 0 <= i < |pieces|
      ensures c !in pieces[i]
    {
      if i > 0 {
        assert pieces[i] == rest[i - 1];
      }
    }
    assert pieces[1..] == rest;
    assert JoinWith(pieces, c) == s[..k] + [c] + JoinWith(rest, c);
    assert s == s[..k] + [c] + s[k + 1..];
  }

  /** Field `i` of `s.split(c)`, or `None` where JavaScript gives `undefined`. */
  function Field(s: string, c: char, i: nat): (r: Option<string>)
    ensures r.Some? <==> i < |SplitOn(s, c)|
    ensures r.Some? ==> c !in r.value
  {
    var pieces := SplitOn(s, c);
    if i < |pieces| then Some(pieces[i]) else None
  }

  /** `s.startsWith(prefix)`. */
  predicate StartsWith(s: string, prefix: string) {
    |prefix| <= |s| && s[..|prefix|] == prefix
  }

  predicate IsDigit(c: char) {
    '0' <= c <= '9'
  }

  predicate AllDigits(s: string) {
    forall i :: 0 <= i < |s| ==> IsDigit(s[i])
  }

  /** A decimal numeral the way JavaScript prints a non-negative integer: digits only,
      and no leading zero unless the numeral is `0` itself. */
  predicate IsCanonicalDecimal(s: string) {
    |s| > 0 && AllDigits(s) && (s[0] == '0' ==> |s| == 1)
  }

  function DigitValue(c: char): (d: nat)
    requires IsDigit(c)
    ensures d < 10
  {
    c as int - '0' as int
  }

  function DigitChar(d: nat): (c: char)
    requires d < 10
    ensures IsDigit(c) && DigitValue(c) == d
  {
    ('0' as int + d) as char
  }

  /** The value of a string of decimal digits, most significant first. */
  function DigitsValue(s: string): nat
    requires AllDigits(s)
    decreases |s|
  {
    if s == [] then 0 else DigitsValue(s[..|s| - 1]) * 10 + DigitValue(s[|s| - 1])
  }

  /** `${n}` for a non-negative integer, most significant digit first. */
  function NatToString(n: nat): string
    decreases n
  {
    if n < 10 then [DigitChar(n)] else NatToString(n / 10) + [DigitChar(n % 10)]
  }

  /** `${n}` is a canonical numeral whose value is `n`. */
  lemma {:induction false} NatToStringValue(n: nat)
    ensures IsCanonicalDecimal(NatToString(n))
    ensures DigitsValue(NatToString(n)) == n
    decreases n
  {
    if n >= 10 {
      NatToStringValue(n / 10);
      var t := NatToString(n / 10);
      var s := NatToString(n);
      assert s == t + [DigitChar(n % 10)];
      assert s[..|s| - 1] == t;
      assert s[0] == t[0];
    }
  }

  /** Unary `+` on a string, for the strings this model covers: surrounding white space
      is ignored, the empty string is 0, a string of decimal digits is its value, and
      every other string is `NaN` (`None`). */
  function ToNumber(s: string): Option<nat> {
    var t := Trim(s);
    if t == [] then Some(0)
    else if AllDigits(t) then Some(DigitsValue(t))
    else None
  }

  lemma TrimStartIdentity(s: string)
    requires StartsClean(s)
    ensures TrimStart(s) == s
  {
  }

  lemma TrimEndIdentity(s: string)
    requires EndsClean(s)
    ensures TrimEnd(s) == s
  {
  }

  lemma TrimIdentity(s: string)
    requires StartsClean(s) && EndsClean(s)
    ensures TrimStart(s) == s && TrimEnd(s) == s && Trim(s) == s
  {
    TrimStartIdentity(s);
    TrimEndIdentity(s);
  }

  /** The number of `c`s in `s`. */
  function Occurrences(s: string, c: char): nat
    decreases |s|
  {
    if s == [] then 0 else (if s[0] == c then 1 else 0) + Occurrences(s[1..], c)
  }

  lemma {:induction false} OccurrencesAppend(a: string, b: string, c: char)
    ensures Occurrences(a + b, c) == Occurrences(a, c) + Occurrences(b, c)
    decreases |a|
  {
    if a == [] {
      assert a + b == b;
    } else {
      assert (a + b)[0] == a[0] && (a + b)[1..] == a[1..] + b;
      OccurrencesAppend(a[1..], b, c);
    }
  }

  lemma {:induction false} OccurrencesNone(s: string, c: char)
    requires forall j :: 0 <= j < |s| ==> s[j] != c
    ensures Occurrences(s, c) == 0
    decreases |s|
  {
    if s != [] {
      OccurrencesNone(s[1..], c);
    }
  }

  /** Trimming white space never removes a non-space character such as `c`. */
  lemma TrimStartKeepsCount(s: string, c: char)
    requires !IsSpace(c)
    ensures Occurrences(TrimStart(s), c) == Occurrences(s, c)
  {
    LeadingSpacesRun(s);
    var dropped := s[..LeadingSpaces(s)];
    assert s == dropped + TrimStart(s);
    OccurrencesAppend(dropped, TrimStart(s), c);
    OccurrencesNone(dropped, c);
  }

  /** Cutting `s` at its first `c` leaves all the other `c`s behind the cut. */
  lemma CountAfterFirst(s: string, c: char, k: nat)
    requires k < |s| && s[k] == c && forall j :: 0 <= j < k ==> s[j] != c
    ensures Occurrences(s, c) == 1 + Occurrences(s[k + 1..], c)
  {
    assert s == s[..k] + ([c] + s[k + 1..]);
    OccurrencesAppend(s[..k], [c] + s[k + 1..], c);
    OccurrencesAppend([c], s[k + 1..], c);
    OccurrencesNone(s[..k], c);
  }

  /** The first `c` in `a + [c] + b` is the one after `a` when `a` has none. */
  lemma FirstIndexAt(a: string, b: string, c: char)
    requires c !in a
    ensures FirstIndex(a + [c] + b, c) == Some(|a|)
  {
    var s := a + [c] + b;
    assert s[|a|] == c && s[..|a|] == a;
    assert forall j :: 0 <= j < |a| ==> s[j] == a[j];
    assert forall k :: |a| < k <= |s| ==> s[..k][|a|] == c;
  }

  lemma {:induction false} LeadingDigitPositive(s: string)
    requires |s| > 0 && AllDigits(s) && s[0] != '0'
    ensures DigitsValue(s) > 0
    decreases |s|
  {
    if |s| > 1 {
      LeadingDigitPositive(s[..|s| - 1]);
    }
  }

  /** A string of decimal digits reads as its value. */
  lemma ToNumberOfDigits(s: string)
    requires |s| > 0 && AllDigits(s)
    ensures ToNumber(s) == Some(DigitsValue(s))
  {
    assert !IsSpace(s[0]) && !IsSpace(s[|s| - 1]);
    TrimIdentity(s);
  }

  /** Printing a number and reading it back gives the number. */
  lemma ToNumberOfNatToString(n: nat)
    ensures ToNumber(NatToString(n)) == Some(n)
  {
    NatToStringValue(n);
    ToNumberOfDigits(NatToString(n));
  }

  /** Reading a canonical numeral and printing the value gives the numeral back. */
  lemma {:induction false} NatToStringOfCanonical(s: string)
    requires IsCanonicalDecimal(s)
    ensures ToNumber(s) == Some(DigitsValue(s))
    ensures NatToString(DigitsValue(s)) == s
    decreases |s|
  {
    ToNumberOfDigits(s);
    if |s| == 1 {
      assert s[..0] == [];
      assert s == [DigitChar(DigitValue(s[0]))];
    } else {
      var t := s[..|s| - 1];
      assert t[0] == s[0];
      NatToStringOfCanonical(t);
      assert s == t + [s[|s| - 1]];
      CanonicalStep(s, t, s[|s| - 1]);
    }
  }

  /** The last digit of a canonical numeral of two or more digits. */
  lemma CanonicalStep(s: string, t: string, c: char)
    requires |t| > 0 && AllDigits(t) && t[0] != '0' && IsDigit(c) && s == t + [c]
    requires NatToString(DigitsValue(t)) == t
    ensures AllDigits(s) && NatToString(DigitsValue(s)) == s
  {
    LeadingDigitPositive(t);
    var a, d := DigitsValue(t), DigitValue(c);
    DigitsSnoc(s, t, c);
    NatToStringSnoc(a, d);
    assert DigitChar(d) == c;
  }

  /** Appending a digit multiplies the value by ten and adds the digit. */
  lemma DigitsSnoc(s: string, t: string, c: char)
    requires AllDigits(t) && IsDigit(c) && s == t + [c]
    ensures AllDigits(s) && DigitsValue(s) == DigitsValue(t) * 10 + DigitValue(c)
  {
    assert s[..|s| - 1] == t;
  }

  /** Printing `10 a + d` with `a > 0` prints `a` and then the digit `d`. */
  lemma NatToStringSnoc(a: nat, d: nat)
    requires a > 0 && d < 10
    ensures NatToString(a * 10 + d) == NatToString(a) + [DigitChar(d)]
  {
    assert (a * 10 + d) / 10 == a && (a * 10 + d) % 10 == d;
  }

}
