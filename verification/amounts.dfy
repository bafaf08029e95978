/**
 * The currency amounts of the high-value rule: the scanner that plays the part of
 *   re.findall(r'(?:INR|Rs\.|₹|\$)\s*([\d,]+(?:\.\d{2})?)', text, re.IGNORECASE)
 * (leftmost, non-overlapping matches, each reduced to its captured numeral), the
 * conversion of a numeral to a value (commas removed, then parsed), and the
 * `{:,.2f}` rendering of a value in a finding's message. Values are whole cents,
 * which the numeral grammar makes exact.
 */
module Amounts {
  import opened Wrappers
  import opened Text

  const RupeeSign: char := '\U{20B9}'

  predicate IsDigitOrComma(c: char) {
    IsDigit(c) || c == ','
  }

  predicate AllDigitOrComma(s: string) {
    forall k :: 0 <= k < |s| ==> IsDigitOrComma(s[k])
  }

  /** The literal `lit` (written in lower case) starts at `i`, ignoring ASCII case. */
  predicate LiteralAt(s: string, i: nat, lit: string) {
    i + |lit| <= |s| && forall k :: 0 <= k < |lit| ==> LowerChar(s[i + k]) == lit[k]
  }

  /** The length of the currency marker `INR`, `Rs.`, `₹` or `$` starting at `i`, tried in that order. */
  function MarkerAt(s: string, i: nat): (r: Option<nat>)
    ensures r.Some? ==> 0 < r.value && i + r.value <= |s|
    ensures r.Some? <==>
      LiteralAt(s, i, "inr") || LiteralAt(s, i, "rs.") || LiteralAt(s, i, [RupeeSign]) || LiteralAt(s, i, "$")
  {
    if LiteralAt(s, i, "inr") then Some(3)
    else if LiteralAt(s, i, "rs.") then Some(3)
    else if LiteralAt(s, i, [RupeeSign]) then Some(1)
    else if LiteralAt(s, i, "$") then Some(1)
    else None
  }

  predicate AllSpace(s: string) {
    forall k :: 0 <= k < |s| ==> IsSpace(s[k])
  }

  /** Where a greedy `\s*` starting at `j` stops. */
  function SpacesEnd(s: string, j: nat): (e: nat)
    requires j <= |s|
    ensures j <= e <= |s|
    ensures AllSpace(s[j..e])
    ensures e == |s| || !IsSpace(s[e])
    decreases |s| - j
  {
    if j == |s| || !IsSpace(s[j]) then j else SpacesEnd(s, j + 1)
  }

  /** Where a greedy `[\d,]*` starting at `j` stops. */
  function DigitsEnd(s: string, j: nat): (e: nat)
    requires j <= |s|
    ensures j <= e <= |s|
    ensures AllDigitOrComma(s[j..e])
    ensures e == |s| || !IsDigitOrComma(s[e])
    decreases |s| - j
  {
    if j == |s| || !IsDigitOrComma(s[j]) then j else DigitsEnd(s, j + 1)
  }

  /** `\.\d{2}` matches at `e`. */
  predicate CentsAt(s: string, e: nat) {
    e + 3 <= |s| && s[e] == '.' && IsDigit(s[e + 1]) && IsDigit(s[e + 2])
  }

  /**
   * The strings the capture group `[\d,]+(?:\.\d{2})?` can match: a non-empty
   * run of digits and commas, optionally followed by a point and two digits.
   */
  predicate IsNumeral(n: string) {
    || (|n| > 0 && AllDigitOrComma(n))
    || (|n| > 3 && AllDigitOrComma(n[..|n| - 3]) && CentsAt(n, |n| - 3))
  }

  /** One match of the whole pattern: `s[start..end]`, whose captured numeral is `s[groupStart..end]`. */
  datatype Span = Span(start: nat, groupStart: nat, end: nat)

  /**
   * The match of the amount pattern that begins at `i`, if any: a marker, then
   * as much whitespace as there is, then as many digits and commas as there
   * are (at least one), then `.dd` if it follows.
   */
  function MatchAt(s: string, i: nat): (m: Option<Span>)
    requires i <= |s|
    ensures m.Some? ==> m.value.start == i < m.value.groupStart < m.value.end <= |s|
    ensures m.Some? ==> IsNumeral(s[m.value.groupStart..m.value.end])
    ensures m.Some? <==>
      MarkerAt(s, i).Some? && SpacesEnd(s, i + MarkerAt(s, i).value) < |s|
      && IsDigitOrComma(s[SpacesEnd(s, i + MarkerAt(s, i).value)])
  {
    match MarkerAt(s, i)
    case None => None
    case Some(len) =>
      var g := SpacesEnd(s, i + len);
      var e := DigitsEnd(s, g);
      if e == g then None
      else
        var end := if CentsAt(s, e) then e + 3 else e;
        assert s[g..end][..end - g - (end - e)] == s[g..e];
        Some(Span(i, g, end))
  }

  /** `MatchAt` at every position of `s`. */
  function Matches(s: string): (t: seq<Option<Span>>)
    ensures |t| == |s| && WellPlaced(t)
    ensures forall i :: 0 <= i < |s| ==> t[i] == MatchAt(s, i)
  {
    seq(|s|, i requires 0 <= i < |s| => MatchAt(s, i))
  }

  /** A table of candidate matches, one per position, each starting where it is listed. */
  predicate WellPlaced(t: seq<Option<Span>>) {
    forall i :: 0 <= i < |t| && t[i].Some? ==> t[i].value.start == i < t[i].value.groupStart < t[i].value.end <= |t|
  }

  /**
   * How `re.findall` walks the string: from position `from`, take the match
   * that starts there and resume at its end, or move one position on when
   * none starts there.
   */
  function Select(t: seq<Option<Span>>, from: nat): (r: seq<Span>)
    requires WellPlaced(t) && from <= |t|
    ensures forall k :: 0 <= k < |r| ==> from <= r[k].start < r[k].groupStart < r[k].end <= |t|
    decreases |t| - from
  {
    if from == |t| then []
    else match t[from]
      case Some(m) => [m] + Select(t, m.end)
      case None => Select(t, from + 1)
  }

  lemma {:induction false} SelectFinds(t: seq<Option<Span>>, from: nat, k: nat)
    requires WellPlaced(t) && from <= |t| && k < |Select(t, from)|
    ensures t[Select(t, from)[k].start] == Some(Select(t, from)[k])
    decreases |t| - from
  {
    if t[from].Some? {
      if k > 0 {
        SelectFinds(t, t[from].value.end, k - 1);
      }
    } else {
      SelectFinds(t, from + 1, k);
    }
  }

  lemma {:induction false} SelectOrdered(t: seq<Option<Span>>, from: nat, i: nat, j: nat)
    requires WellPlaced(t) && from <= |t| && i < j < |Select(t, from)|
    ensures Select(t, from)[i].end <= Select(t, from)[j].start
    decreases |t| - from
  {
    if t[from].Some? {
      var rest := Select(t, t[from].value.end);
      if i > 0 {
        SelectOrdered(t, t[from].value.end, i - 1, j - 1);
      } else {
        assert Select(t, from)[j] == rest[j - 1];
      }
    } else {
      SelectOrdered(t, from + 1, i, j);
    }
  }

  lemma {:induction false} SelectMissesNothing(t: seq<Option<Span>>, from: nat, p: nat) returns (k: nat)
    requires WellPlaced(t) && from <= p < |t| && t[p].Some?
    ensures k < |Select(t, from)| && Select(t, from)[k].start <= p < Select(t, from)[k].end
    decreases |t| - from
  {
    if t[from].Some? {
      if p < t[from].value.end {
        k := 0;
      } else {
        var j := SelectMissesNothing(t, t[from].value.end, p);
        k := j + 1;
      }
    } else {
      k := SelectMissesNothing(t, from + 1, p);
    }
  }

  /**
   * All matches from position `from` on, as `re.findall` finds them: the
   * leftmost match, then the leftmost match from its end, and so on.
   * ScanFindsMatches, ScanOrdered and ScanMissesNothing say that these are
   * exactly the leftmost, non-overlapping matches.
   */
  function Scan(s: string, from: nat): (r: seq<Span>)
    requires from <= |s|
    ensures forall k :: 0 <= k < |r| ==> from <= r[k].start < r[k].groupStart < r[k].end <= |s|
  {
    Select(Matches(s), from)
  }

  /** Every span Scan reports is the match found at its start. */
  lemma ScanFindsMatches(s: string, from: nat, k: nat)
    requires from <= |s| && k < |Scan(s, from)|
    ensures MatchAt(s, Scan(s, from)[k].start) == Some(Scan(s, from)[k])
  {
    SelectFinds(Matches(s), from, k);
  }

  /** The spans Scan reports do not overlap and come in order. */
  lemma ScanOrdered(s: string, from: nat, i: nat, j: nat)
    requires from <= |s| && i < j < |Scan(s, from)|
    ensures Scan(s, from)[i].end <= Scan(s, from)[j].start
  {
    SelectOrdered(Matches(s), from, i, j);
  }

  /**
   * Every position where some match could begin lies inside a reported match:
   * no match is skipped other than one that overlaps an earlier match.
   */
  lemma ScanMissesNothing(s: string, from: nat, p: nat) returns (k: nat)
    requires from <= p < |s| && MatchAt(s, p).Some?
    ensures k < |Scan(s, from)| && Scan(s, from)[k].start <= p < Scan(s, from)[k].end
  {
    k := SelectMissesNothing(Matches(s), from, p);
  }

  /** The list `re.findall` returns: the captured numeral of every match, in order. */
  function Numerals(s: string): (ns: seq<string>)
    ensures forall k :: 0 <= k < |ns| ==> IsNumeral(ns[k])
  {
    var spans := Scan(s, 0);
    assert forall k | 0 <= k < |spans| :: IsNumeral(s[spans[k].groupStart..spans[k].end]) by {
      forall k | 0 <= k < |spans|
        ensures IsNumeral(s[spans[k].groupStart..spans[k].end])
      {
        ScanFindsMatches(s, 0, k);
      }
    }
    seq(|spans|, k requires 0 <= k < |spans| => s[spans[k].groupStart..spans[k].end])
  }

  /** `amt_str.replace(",", "")`. */
  function RemoveCommas(s: string): (r: string)
    ensures forall k :: 0 <= k < |r| ==> r[k] != ','
  {
    if s == [] then []
    else RemoveCommas(s[..|s| - 1]) + (if s[|s| - 1] == ',' then [] else [s[|s| - 1]])
  }

  /**
   * The value in cents of a comma-free numeral: digits, optionally followed by
   * `.dd` (an empty integer part reads as zero, as `float(".50")` does).
   */
  function DecimalCents(clean: string): nat {
    var n := |clean|;
    if n >= 3 && clean[n - 3] == '.' then
      DigitsValue(clean[..n - 3]) * 100 + DigitValue(clean[n - 2]) * 10 + DigitValue(clean[n - 1])
    else DigitsValue(clean) * 100
  }

  /**
   * The value of a captured numeral in cents, or None when the numeral is
   * skipped: the commas are removed and an empty remainder is passed over.
   */
  function ParseCents(n: string): Option<nat>
    requires IsNumeral(n)
  {
    var clean := RemoveCommas(n);
    if clean == [] then None else Some(DecimalCents(clean))
  }

  /** The largest value among the numerals, starting from zero: the source's `max_found`. */
  function MaxParsed(ns: seq<string>): nat
    requires forall k :: 0 <= k < |ns| ==> IsNumeral(ns[k])
  {
    if ns == [] then 0
    else
      var m := MaxParsed(ns[..|ns| - 1]);
      match ParseCents(ns[|ns| - 1])
      case Some(v) => if v > m then v else m
      case None => m
  }

  /** `{:,.2f}` on a whole number of cents: thousands grouped with commas, two decimals. */
  function FormatCents(c: nat): string {
    Grouped(c / 100) + "." + PadDigits(c % 100, 2)
  }

  /** The decimal digits of `n`, grouped in threes from the right with commas. */
  function Grouped(n: nat): string {
    if n < 1000 then DecimalDigits(n)
    else Grouped(n / 1000) + "," + PadDigits(n % 1000, 3)
  }

  /** The decimal digits of `n` without leading zeros (`"0"` for zero). */
  function DecimalDigits(n: nat): string {
    if n < 10 then [Digit(n)] else DecimalDigits(n / 10) + [Digit(n % 10)]
  }

  // ---------------------------------------------------------------- lemmas

  lemma {:induction false} RemoveCommasAppend(a: string, b: string)
    ensures RemoveCommas(a + b) == RemoveCommas(a) + RemoveCommas(b)
    decreases |b|
  {
    if b == [] {
      assert a + b == a;
    } else {
      assert (a + b)[..|a + b| - 1] == a + b[..|b| - 1];
      RemoveCommasAppend(a, b[..|b| - 1]);
    }
  }

  lemma {:induction false} RemoveCommasEmpty(s: string)
    ensures RemoveCommas(s) == [] <==> forall k :: 0 <= k < |s| ==> s[k] == ','
  {
    if s != [] {
      var init := s[..|s| - 1];
      RemoveCommasEmpty(init);
      assert forall k :: 0 <= k < |init| ==> init[k] == s[k];
    }
  }

  lemma {:induction false} RemoveCommasKeeps(s: string)
    requires forall k :: 0 <= k < |s| ==> s[k] != ','
    ensures RemoveCommas(s) == s
  {
    if s != [] {
      RemoveCommasKeeps(s[..|s| - 1]);
    }
  }

  /**
   * A numeral is skipped exactly when it consists of commas only (`INR ,,,`);
   * every other numeral has a value.
   */
  lemma SkippedIffOnlyCommas(n: string)
    requires IsNumeral(n)
    ensures ParseCents(n).None? <==> forall k :: 0 <= k < |n| ==> n[k] == ','
  {
    RemoveCommasEmpty(n);
  }

  /**
   * The running maximum is the largest parsed value when there is one above
   * zero, and zero otherwise: it bounds every parsed value and is either zero
   * or one of them.
   */
  lemma {:induction false} MaxParsedIsMaximum(ns: seq<string>)
    requires forall k :: 0 <= k < |ns| ==> IsNumeral(ns[k])
    ensures forall k :: 0 <= k < |ns| && ParseCents(ns[k]).Some? ==> ParseCents(ns[k]).value <= MaxParsed(ns)
    ensures MaxParsed(ns) == 0 || exists k :: 0 <= k < |ns| && ParseCents(ns[k]) == Some(MaxParsed(ns))
  {
    if ns != [] {
      var init := ns[..|ns| - 1];
      MaxParsedIsMaximum(init);
      assert forall k :: 0 <= k < |init| ==> init[k] == ns[k];
      if MaxParsed(ns) != 0 && MaxParsed(ns) == MaxParsed(init) {
        var k :| 0 <= k < |init| && ParseCents(init[k]) == Some(MaxParsed(init));
        assert ns[k] == init[k];
      }
    }
  }

  lemma {:induction false} DecimalDigitsValue(n: nat)
    ensures |DecimalDigits(n)| > 0 && AllDigits(DecimalDigits(n))
    ensures RemoveCommas(DecimalDigits(n)) == DecimalDigits(n)
    ensures DigitsValue(DecimalDigits(n)) == n
  {
    var s := DecimalDigits(n);
    if n >= 10 {
      DecimalDigitsValue(n / 10);
      var d := DecimalDigits(n / 10);
      assert s == d + [Digit(n % 10)];
      assert s[..|s| - 1] == d;
      assert DigitsValue(s) == DigitsValue(d) * 10 + n % 10;
      assert n / 10 * 10 + n % 10 == n;
    } else {
      assert s == [Digit(n)];
      assert s[..0] == [];
    }
    RemoveCommasKeeps(s);
  }

  lemma CommaThenDigits(t: string)
    requires AllDigits(t)
    ensures RemoveCommas([','] + t) == t
  {
    assert RemoveCommas([',']) == [] by { assert [','][..0] == []; }
    RemoveCommasKeeps(t);
    RemoveCommasAppend([','], t);
  }

  lemma {:induction false} GroupedShape(n: nat)
    ensures |Grouped(n)| > 0 && AllDigitOrComma(Grouped(n))
  {
    if n < 1000 {
      DecimalDigitsValue(n);
    } else {
      GroupedShape(n / 1000);
      PadDigitsValue(n % 1000, 3);
    }
  }

  /** Above 999, the commas of Grouped(n) removed are those of its leading groups followed by the last three digits. */
  lemma GroupedClean(n: nat)
    requires n >= 1000
    ensures RemoveCommas(Grouped(n)) == RemoveCommas(Grouped(n / 1000)) + PadDigits(n % 1000, 3)
  {
    var g := Grouped(n / 1000);
    var t := PadDigits(n % 1000, 3);
    PadDigitsValue(n % 1000, 3);
    CommaThenDigits(t);
    assert Grouped(n) == g + ([','] + t);
    RemoveCommasAppend(g, [','] + t);
  }

  lemma {:induction false} GroupedValue(n: nat)
    ensures AllDigits(RemoveCommas(Grouped(n)))
    ensures DigitsValue(RemoveCommas(Grouped(n))) == n
  {
    if n < 1000 {
      DecimalDigitsValue(n);
    } else {
      GroupedValue(n / 1000);
      var head := RemoveCommas(Grouped(n / 1000));
      var t := PadDigits(n % 1000, 3);
      PadDigitsValue(n % 1000, 3);
      GroupedClean(n);
      DigitsValueAppend(head, t);
      assert Pow10(3) == 1000 by {
        assert Pow10(1) == 10;
        assert Pow10(2) == 100;
      }
      assert DigitsValue(head + t) == DigitsValue(head) * 1000 + DigitsValue(t);
      assert n / 1000 * 1000 + n % 1000 == n;
    }
  }

  /** The rendering of a value is itself a numeral of the amount pattern. */
  lemma FormatCentsIsNumeral(c: nat)
    ensures IsNumeral(FormatCents(c))
  {
    GroupedShape(c / 100);
    PadDigitsValue(c % 100, 2);
    var f := FormatCents(c);
    assert f[..|f| - 3] == Grouped(c / 100);
  }

  /**
   * Reading back a rendered amount gives the same value: the amount a
   * high-value finding reports is exactly the chunk's maximum.
   */
  lemma FormatCentsRoundTrip(c: nat)
    ensures IsNumeral(FormatCents(c))
    ensures ParseCents(FormatCents(c)) == Some(c)
  {
    FormatCentsIsNumeral(c);
    var clean := RemoveCommas(FormatCents(c));
    assert clean != [] && DecimalCents(clean) == c by {
      RenderedClean(c);
    }
  }

  /** Removing the grouping commas from a rendering leaves the plain digits, a point and the cents. */
  lemma RenderedClean(c: nat)
    ensures RemoveCommas(FormatCents(c)) == RemoveCommas(Grouped(c / 100)) + "." + PadDigits(c % 100, 2)
    ensures DecimalCents(RemoveCommas(FormatCents(c))) == c
  {
    var g := Grouped(c / 100);
    var t := PadDigits(c % 100, 2);
    PadDigitsValue(c % 100, 2);
    var tail := "." + t;
    assert FormatCents(c) == g + tail;
    RemoveCommasAppend(g, tail);
    RemoveCommasKeeps(tail);
    assert RemoveCommas(FormatCents(c)) == RemoveCommas(g) + "." + t;
    CleanCents(c);
  }

  lemma CleanCents(c: nat)
    ensures DecimalCents(RemoveCommas(Grouped(c / 100)) + "." + PadDigits(c % 100, 2)) == c
  {
    GroupedValue(c / 100);
    PadDigitsValue(c % 100, 2);
    PointCents(RemoveCommas(Grouped(c / 100)), PadDigits(c % 100, 2));
    assert c / 100 * 100 + c % 100 == c;
  }

  lemma PointCents(ip: string, t: string)
    requires |t| == 2
    ensures DecimalCents(ip + "." + t) == DigitsValue(ip) * 100 + DigitsValue(t)
  {
    var clean := ip + "." + t;
    assert clean[..|clean| - 3] == ip;
    assert clean[|clean| - 2] == t[0] && clean[|clean| - 1] == t[1];
    assert t[..1][..0] == [] && t[..1][0] == t[0] && t[..|t| - 1] == t[..1];
    assert DigitsValue(t[..1]) == DigitValue(t[0]);
    assert DigitsValue(t) == DigitValue(t[0]) * 10 + DigitValue(t[1]);
  }

  /** Two values with the same rendering are the same value. */
  lemma FormatCentsInjective(a: nat, b: nat)
    requires FormatCents(a) == FormatCents(b)
    ensures a == b
  {
    FormatCentsRoundTrip(a);
    FormatCentsRoundTrip(b);
  }
}
