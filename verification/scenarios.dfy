/**
 * Worked scenarios of the three rules on concrete chunks: the threshold
 * boundary, one finding for the largest of several amounts, the calendar
 * check, future and past dates, the case-insensitive blacklist match, and a
 * finding raised by two chunks reported once.
 */
module Scenarios {
  import opened Wrappers
  import opened Text
  import opened Amounts
  import opened Dates
  import opened Audit
  import opened Properties

  lemma InrMatch(t: string)
    requires t == "INR 10,000"
    ensures Numerals(t) == ["10,000"]
  {
    assert LowerChar('I') == 'i' && LowerChar('N') == 'n' && LowerChar('R') == 'r';
    assert LiteralAt(t, 0, "inr");
    assert MarkerAt(t, 0) == Some(3);
    assert SpacesEnd(t, 4) == 4;
    assert SpacesEnd(t, 3) == 4;
    assert DigitsEnd(t, 10) == 10;
    assert DigitsEnd(t, 9) == 10;
    assert DigitsEnd(t, 8) == 10;
    assert DigitsEnd(t, 7) == 10;
    assert DigitsEnd(t, 6) == 10;
    assert DigitsEnd(t, 5) == 10;
    assert DigitsEnd(t, 4) == 10;
    assert MatchAt(t, 0) == Some(Span(0, 4, 10));
    assert Scan(t, 10) == [];
    assert Scan(t, 0) == [Span(0, 4, 10)];
    assert t[4..10] == "10,000";
  }

  lemma TenThousandDigits()
    ensures DigitsValue("10000") == 10000
  {
    assert "10000"[..4] == "1000" && "1000"[..3] == "100" && "100"[..2] == "10" && "10"[..1] == "1";
  }

  lemma TenThousand()
    ensures RemoveCommas("10,000") == "10000"
    ensures ParseCents("10,000") == Some(1_000_000)
  {
    assert "10,000"[..5] == "10,00" && "10,00"[..4] == "10,0" && "10,0"[..3] == "10,";
    assert "10,"[..2] == "10" && "10"[..1] == "1" && "1"[..0] == "";
    assert RemoveCommas("10,000") == "10000";
    TenThousandDigits();
  }

  /** "INR 10,000" against a 10000 threshold: equal, so not flagged. */
  lemma BoundaryNotFlagged(src: Option<string>, today: Date, f: Finding)
    requires f.rule == HighValueTransaction
    ensures f !in ChunkFindings(Chunk("INR 10,000", src), Policy([], 1_000_000), today)
  {
    InrMatch("INR 10,000");
    TenThousand();
    assert ["10,000"][..0] == [];
    assert MaxParsed(["10,000"]) == 1_000_000;
    HighValueRule(Chunk("INR 10,000", src), Policy([], 1_000_000), today, f);
  }

  lemma InrCentsMatch(t: string)
    requires t == "INR 10,000.01"
    ensures Numerals(t) == ["10,000.01"]
  {
    assert LowerChar('I') == 'i' && LowerChar('N') == 'n' && LowerChar('R') == 'r';
    assert LiteralAt(t, 0, "inr");
    assert MarkerAt(t, 0) == Some(3);
    assert SpacesEnd(t, 4) == 4;
    assert SpacesEnd(t, 3) == 4;
    assert DigitsEnd(t, 10) == 10;
    assert DigitsEnd(t, 9) == 10;
    assert DigitsEnd(t, 8) == 10;
    assert DigitsEnd(t, 7) == 10;
    assert DigitsEnd(t, 6) == 10;
    assert DigitsEnd(t, 5) == 10;
    assert DigitsEnd(t, 4) == 10;
    assert CentsAt(t, 10);
    assert MatchAt(t, 0) == Some(Span(0, 4, 13));
    assert Scan(t, 13) == [];
    assert Scan(t, 0) == [Span(0, 4, 13)];
    assert t[4..13] == "10,000.01";
  }

  lemma TenThousandOneClean()
    ensures RemoveCommas("10,000.01") == "10000.01"
  {
    TenThousand();
    assert "10,000."[..6] == "10,000";
    assert RemoveCommas("10,000.") == "10000.";
    assert "10,000.0"[..7] == "10,000.";
    assert RemoveCommas("10,000.0") == "10000.0";
    assert "10,000.01"[..8] == "10,000.0";
  }

  lemma TenThousandOne()
    ensures ParseCents("10,000.01") == Some(1_000_001)
  {
    TenThousandOneClean();
    var c := "10000.01";
    assert c[..5] == "10000" && c[5] == '.' && c[6] == '0' && c[7] == '1';
    TenThousandDigits();
    assert DecimalCents(c) == 1_000_001;
  }

  lemma MaxOfTenThousandOne()
    ensures MaxParsed(["10,000.01"]) == 1_000_001
  {
    TenThousandOne();
    assert ["10,000.01"][..0] == [];
  }

  lemma GroupedTenThousand()
    ensures Grouped(10_000) == "10,000"
  {
    assert Grouped(10) == "10";
    assert PadDigits(0, 3) == "000";
  }

  lemma FormatTenThousandOne()
    ensures FormatCents(1_000_001) == "10,000.01"
  {
    GroupedTenThousand();
    assert 1_000_001 / 100 == 10_000 && 1_000_001 % 100 == 1;
    assert PadDigits(0, 1) == "0";
    assert PadDigits(1, 2) == "01";
  }

  /** "INR 10,000.01" against a 10000 threshold: flagged, and the message shows 10,000.01. */
  lemma JustAboveFlagged(src: Option<string>, today: Date)
    ensures AmountFinding(1_000_001, SourceName(Chunk("INR 10,000.01", src)))
      in ChunkFindings(Chunk("INR 10,000.01", src), Policy([], 1_000_000), today)
    ensures FormatCents(1_000_001) == "10,000.01"
  {
    var c := Chunk("INR 10,000.01", src);
    InrCentsMatch(c.text);
    MaxOfTenThousandOne();
    HighValueRule(c, Policy([], 1_000_000), today, AmountFinding(1_000_001, SourceName(c)));
    FormatTenThousandOne();
  }

  lemma FirstAmountMatch(t: string)
    requires t == "INR 1,000 $ 50,000"
    ensures MatchAt(t, 0) == Some(Span(0, 4, 9))
  {
    assert LowerChar('I') == 'i' && LowerChar('N') == 'n' && LowerChar('R') == 'r';
    assert LiteralAt(t, 0, "inr");
    assert MarkerAt(t, 0) == Some(3);
    assert SpacesEnd(t, 4) == 4;
    assert SpacesEnd(t, 3) == 4;
    assert DigitsEnd(t, 9) == 9;
    assert DigitsEnd(t, 8) == 9;
    assert DigitsEnd(t, 7) == 9;
    assert DigitsEnd(t, 6) == 9;
    assert DigitsEnd(t, 5) == 9;
    assert DigitsEnd(t, 4) == 9;
    assert !CentsAt(t, 9);
  }

  lemma NoMatchBetweenAmounts(t: string)
    requires t == "INR 1,000 $ 50,000"
    ensures MatchAt(t, 9) == None
  {
    assert t[9] == ' ' && LowerChar(' ') == ' ';
    assert LowerChar(t[9 + 0]) != "inr"[0] && LowerChar(t[9 + 0]) != "rs."[0] && LowerChar(t[9 + 0]) != [RupeeSign][0] && LowerChar(t[9 + 0]) != "$"[0];
    assert MarkerAt(t, 9) == None;
  }

  lemma SecondAmountMatch(t: string)
    requires t == "INR 1,000 $ 50,000"
    ensures MatchAt(t, 10) == Some(Span(10, 12, 18))
  {
    assert t[10] == '$' && LowerChar('$') == '$';
    assert LowerChar(t[10 + 0]) != "inr"[0] && LowerChar(t[10 + 0]) != "rs."[0] && LowerChar(t[10 + 0]) != [RupeeSign][0];
    assert LiteralAt(t, 10, "$");
    assert MarkerAt(t, 10) == Some(1);
    assert SpacesEnd(t, 12) == 12;
    assert SpacesEnd(t, 11) == 12;
    assert DigitsEnd(t, 18) == 18;
    assert DigitsEnd(t, 17) == 18;
    assert DigitsEnd(t, 16) == 18;
    assert DigitsEnd(t, 15) == 18;
    assert DigitsEnd(t, 14) == 18;
    assert DigitsEnd(t, 13) == 18;
    assert DigitsEnd(t, 12) == 18;
    assert !CentsAt(t, 18);
  }

  lemma ScanAfterFirstAmount(t: string)
    requires t == "INR 1,000 $ 50,000"
    ensures Scan(t, 9) == [Span(10, 12, 18)]
  {
    NoMatchBetweenAmounts(t);
    SecondAmountMatch(t);
    assert Scan(t, 18) == [];
    assert Scan(t, 10) == [Span(10, 12, 18)];
  }

  lemma TwoAmountsMatch(t: string)
    requires t == "INR 1,000 $ 50,000"
    ensures Numerals(t) == ["1,000", "50,000"]
  {
    FirstAmountMatch(t);
    ScanAfterFirstAmount(t);
    assert Scan(t, 0) == [Span(0, 4, 9), Span(10, 12, 18)];
    assert t[4..9] == "1,000" && t[12..18] == "50,000";
  }

  lemma OneThousandClean()
    ensures RemoveCommas("1,000") == "1000"
  {
    assert "1,000"[..4] == "1,00" && "1,00"[..3] == "1,0" && "1,0"[..2] == "1," && "1,"[..1] == "1";
  }

  lemma OneThousandDigits()
    ensures DigitsValue("1000") == 1000
  {
    assert "1000"[..3] == "100" && "100"[..2] == "10" && "10"[..1] == "1";
  }

  lemma OneThousand()
    ensures ParseCents("1,000") == Some(100_000)
  {
    OneThousandClean();
    OneThousandDigits();
    assert "1000"[1] != '.';
  }

  lemma FiftyThousandClean()
    ensures RemoveCommas("50,000") == "50000"
  {
    assert "50,000"[..5] == "50,00" && "50,00"[..4] == "50,0" && "50,0"[..3] == "50,";
    assert "50,"[..2] == "50" && "50"[..1] == "5";
  }

  lemma FiftyThousandDigits()
    ensures DigitsValue("50000") == 50000
  {
    assert "50000"[..4] == "5000" && "5000"[..3] == "500" && "500"[..2] == "50" && "50"[..1] == "5";
  }

  lemma FiftyThousand()
    ensures ParseCents("50,000") == Some(5_000_000)
  {
    FiftyThousandClean();
    FiftyThousandDigits();
    assert "50000"[2] != '.';
  }

  /** The running maximum over two parsed numerals is the larger value. */
  lemma MaxOfTwo(a: string, b: string, x: nat, y: nat)
    requires IsNumeral(a) && IsNumeral(b)
    requires ParseCents(a) == Some(x) && ParseCents(b) == Some(y)
    ensures MaxParsed([a, b]) == if x < y then y else x
  {
    assert [a][..0] == [];
    assert MaxParsed([a]) == x;
    assert [a, b][..1] == [a];
  }

  lemma FormatFiftyThousand()
    ensures FormatCents(5_000_000) == "50,000.00"
  {
    assert Grouped(50) == "50";
    assert PadDigits(0, 3) == "000";
    assert Grouped(50_000) == "50,000";
    assert PadDigits(0, 2) == "00";
  }

  /**
   * "INR 1,000" and "$ 50,000" in one chunk against a 10000 threshold: one
   * high-value finding, for the larger amount, shown as 50,000.00.
   */
  lemma OnlyMaximumFlagged(src: Option<string>, today: Date, f: Finding)
    requires f.rule == HighValueTransaction
    ensures f in ChunkFindings(Chunk("INR 1,000 $ 50,000", src), Policy([], 1_000_000), today)
      <==> f == AmountFinding(5_000_000, SourceName(Chunk("INR 1,000 $ 50,000", src)))
    ensures FormatCents(5_000_000) == "50,000.00"
  {
    var c := Chunk("INR 1,000 $ 50,000", src);
    var ns := Numerals(c.text);
    TwoAmountsMatch(c.text);
    assert ns == [ns[0], ns[1]];
    OneThousand();
    FiftyThousand();
    MaxOfTwo(ns[0], ns[1], 100_000, 5_000_000);
    HighValueRule(c, Policy([], 1_000_000), today, f);
    FormatFiftyThousand();
  }

  lemma YearDigits()
    ensures DigitsValue("2024") == 2024 && DigitsValue("2023") == 2023
  {
    assert "2024"[..3] == "202" && "202"[..2] == "20" && "20"[..1] == "2";
    assert "2023"[..3] == "202";
  }

  lemma MonthDayDigits()
    ensures DigitsValue("13") == 13 && DigitsValue("02") == 2 && DigitsValue("01") == 1 && DigitsValue("29") == 29
  {
    assert "13"[..1] == "1" && "02"[..1] == "0" && "01"[..1] == "0" && "29"[..1] == "2";
  }

  /** A thirteenth month is not a date. */
  lemma ThirteenthMonthRejected()
    ensures ParseDate("2024-13-01") == None
  {
    YearDigits();
    MonthDayDigits();
    var t := "2024-13-01";
    assert t[..4] == "2024" && t[5..7] == "13" && t[8..] == "01";
  }

  /** 29 February exists in 2024, a leap year, and not in 2023. */
  lemma LeapDayExamples()
    ensures ParseDate("2023-02-29") == None
    ensures ParseDate("2024-02-29") == Some(Date(2024, 2, 29))
  {
    YearDigits();
    MonthDayDigits();
    assert "2023-02-29"[..4] == "2023" && "2023-02-29"[5..7] == "02" && "2023-02-29"[8..] == "29";
    assert "2024-02-29"[..4] == "2024" && "2024-02-29"[5..7] == "02" && "2024-02-29"[8..] == "29";
  }

  /** A chunk that is exactly one date string yields that string as its only date match. */
  lemma OneDateMatch(t: string)
    requires IsDateText(t)
    ensures DateMatches(t) == [t]
  {
    assert ScanDates(t, 10) == [];
    assert ScanDates(t, 0) == [0];
    assert t[0..10] == t;
  }

  lemma FutureAndPastDigits()
    ensures DigitsValue("2030") == 2030 && DigitsValue("2020") == 2020 && DigitsValue("01") == 1
  {
    assert "2030"[..3] == "203" && "203"[..2] == "20" && "20"[..1] == "2";
    assert "2020"[..3] == "202" && "202"[..2] == "20" && "01"[..1] == "0";
  }

  /** Evaluated on 2025-01-01, a chunk naming 2030-01-01 raises one future-date finding for it. */
  lemma FutureDateFlagged(src: Option<string>, f: Finding)
    requires f.rule == FutureDatingAnomaly
    ensures f in ChunkFindings(Chunk("2030-01-01", src), Policy([], 1_000_000), Date(2025, 1, 1))
      <==> f == DateFinding("2030-01-01", SourceName(Chunk("2030-01-01", src)))
  {
    var t := "2030-01-01";
    assert IsDateText(t);
    OneDateMatch(t);
    FutureAndPastDigits();
    assert t[..4] == "2030" && t[5..7] == "01" && t[8..] == "01";
    assert ParseDate(t) == Some(Date(2030, 1, 1));
    FutureDateRule(Chunk(t, src), Policy([], 1_000_000), Date(2025, 1, 1), f);
  }

  /** Evaluated on 2025-01-01, a chunk naming 2020-01-01 raises no future-date finding. */
  lemma PastDateNotFlagged(src: Option<string>, f: Finding)
    requires f.rule == FutureDatingAnomaly
    ensures f !in ChunkFindings(Chunk("2020-01-01", src), Policy([], 1_000_000), Date(2025, 1, 1))
  {
    var t := "2020-01-01";
    assert IsDateText(t);
    OneDateMatch(t);
    FutureAndPastDigits();
    assert t[..4] == "2020" && t[5..7] == "01" && t[8..] == "01";
    assert ParseDate(t) == Some(Date(2020, 1, 1));
    FutureDateRule(Chunk(t, src), Policy([], 1_000_000), Date(2025, 1, 1), f);
  }

  lemma DarkWebTitle()
    ensures Title("darkweb solutions ltd") == "Darkweb Solutions Ltd"
  {
    var w := "darkweb solutions ltd";
    var r := Title(w);
    forall i | 0 <= i < 11
      ensures r[i] == "Darkweb Solutions Ltd"[i]
    {
      assert r[i] == TitleCharAt(w, i);
    }
    forall i | 11 <= i < |w|
      ensures r[i] == "Darkweb Solutions Ltd"[i]
    {
      assert r[i] == TitleCharAt(w, i);
    }
  }

  lemma DarkWebPolicy()
    ensures EffectivePolicy(Some(PolicyFile(Some(["DarkWeb Solutions Ltd"]), Some(1_000_000))))
      == Policy(["darkweb solutions ltd"], 1_000_000)
  {
    var p := EffectivePolicy(Some(PolicyFile(Some(["DarkWeb Solutions Ltd"]), Some(1_000_000))));
    assert p.bannedVendors[0] == Lower("DarkWeb Solutions Ltd");
    assert Lower("DarkWeb Solutions Ltd") == "darkweb solutions ltd";
  }

  /**
   * A banned name configured as "DarkWeb Solutions Ltd" is found in a chunk
   * that spells it in lower case; the one blacklist finding shows it in
   * title case.
   */
  lemma DarkWebFlagged(src: Option<string>, today: Date, f: Finding)
    requires f.rule == BlacklistedVendor
    ensures f in ChunkFindings(Chunk("darkweb solutions ltd", src),
        EffectivePolicy(Some(PolicyFile(Some(["DarkWeb Solutions Ltd"]), Some(1_000_000)))), today)
      <==> f == Finding(BlacklistedVendor, Critical,
        "Found '" + "Darkweb Solutions Ltd" + "' in file '" + SourceName(Chunk("darkweb solutions ltd", src)) + "'.")
  {
    var x := "darkweb solutions ltd";
    var c := Chunk(x, src);
    DarkWebPolicy();
    var p := Policy([x], 1_000_000);
    BlacklistRule(c, p, today, f);
    assert Lower(x) == x;
    assert OccursAt(x, x, 0);
    DarkWebTitle();
  }

  /** The blacklist finding raised by the chunk "darkweb solutions ltd" under the "DarkWeb Solutions Ltd" policy. */
  function DarkWebFinding(src: Option<string>): Finding {
    Finding(BlacklistedVendor, Critical,
      "Found '" + "Darkweb Solutions Ltd" + "' in file '" + SourceName(Chunk("darkweb solutions ltd", src)) + "'.")
  }

  lemma DarkWebInBoth(src: Option<string>, today: Date)
    ensures DarkWebFinding(src) in AllFindings([Chunk("darkweb solutions ltd", src), Chunk("darkweb solutions ltd", src)],
      EffectivePolicy(Some(PolicyFile(Some(["DarkWeb Solutions Ltd"]), Some(1_000_000)))), today)
  {
    var c := Chunk("darkweb solutions ltd", src);
    var p := EffectivePolicy(Some(PolicyFile(Some(["DarkWeb Solutions Ltd"]), Some(1_000_000))));
    DarkWebFlagged(src, today, DarkWebFinding(src));
    ChunkFindingIsReported([c, c], p, today, 0, DarkWebFinding(src));
  }

  lemma OnlyDarkWebInBoth(src: Option<string>, today: Date, f: Finding)
    requires f.rule == BlacklistedVendor
    requires f in AllFindings([Chunk("darkweb solutions ltd", src), Chunk("darkweb solutions ltd", src)],
      EffectivePolicy(Some(PolicyFile(Some(["DarkWeb Solutions Ltd"]), Some(1_000_000)))), today)
    ensures f == DarkWebFinding(src)
  {
    var c := Chunk("darkweb solutions ltd", src);
    var p := EffectivePolicy(Some(PolicyFile(Some(["DarkWeb Solutions Ltd"]), Some(1_000_000))));
    var k := ReportedFindingHasChunk([c, c], p, today, f);
    assert [c, c][k] == c;
    DarkWebFlagged(src, today, f);
  }

  /**
   * Two chunks of the same source that both name the banned vendor: any list
   * meeting the contract of Audit.CheckCompliance holds the blacklist finding
   * exactly once, and no other blacklist finding.
   */
  lemma DuplicateChunksReportedOnce(src: Option<string>, today: Date, findings: seq<Finding>)
    requires NoDuplicates(findings)
    requires forall f :: f in findings <==> f in AllFindings([Chunk("darkweb solutions ltd", src), Chunk("darkweb solutions ltd", src)],
      EffectivePolicy(Some(PolicyFile(Some(["DarkWeb Solutions Ltd"]), Some(1_000_000)))), today)
    ensures multiset(findings)[DarkWebFinding(src)] == 1
    ensures forall f :: f in findings && f.rule == BlacklistedVendor ==> f == DarkWebFinding(src)
  {
    DarkWebInBoth(src, today);
    ReportedOnce(findings, DarkWebFinding(src));
    forall f | f in findings && f.rule == BlacklistedVendor
      ensures f == DarkWebFinding(src)
    {
      OnlyDarkWebInBoth(src, today, f);
    }
  }
}
