/**
 * What the compliance rules promise, stated over the findings of one chunk
 * (Audit.ChunkFindings) and of all chunks (Audit.AllFindings). Together with
 * the contract of Audit.CheckCompliance (no duplicates, same findings as
 * AllFindings) they describe the engine's output completely, up to order.
 */
module Properties {
  import opened Wrappers
  import opened Text
  import opened Amounts
  import opened Dates
  import opened Audit

  // ------------------------------------------------------------ all chunks

  /** AllFindings peels off its last chunk. */
  lemma AllFindingsUnfold(chunks: seq<Chunk>, p: Policy, today: Date)
    requires chunks != []
    ensures AllFindings(chunks, p, today)
      == AllFindings(chunks[..|chunks| - 1], p, today) + ChunkFindings(chunks[|chunks| - 1], p, today)
  {
  }

  lemma LastChunkIsReported(chunks: seq<Chunk>, p: Policy, today: Date, f: Finding)
    requires chunks != [] && f in ChunkFindings(chunks[|chunks| - 1], p, today)
    ensures f in AllFindings(chunks, p, today)
  {
    AllFindingsUnfold(chunks, p, today);
  }

  /** Every finding of a chunk in the list is a finding of the list. */
  lemma {:induction false} ChunkFindingIsReported(chunks: seq<Chunk>, p: Policy, today: Date, k: int, f: Finding)
    requires 0 <= k < |chunks| && f in ChunkFindings(chunks[k], p, today)
    ensures f in AllFindings(chunks, p, today)
  {
    var n := |chunks| - 1;
    if k == n {
      LastChunkIsReported(chunks, p, today, f);
    } else {
      var init := chunks[..n];
      assert init[k] == chunks[k];
      ChunkFindingIsReported(init, p, today, k, f);
      AllFindingsUnfold(chunks, p, today);
    }
  }

  /** Every finding of the list comes from some chunk of the list. */
  lemma {:induction false} ReportedFindingHasChunk(chunks: seq<Chunk>, p: Policy, today: Date, f: Finding)
    returns (k: int)
    requires f in AllFindings(chunks, p, today)
    ensures 0 <= k < |chunks| && f in ChunkFindings(chunks[k], p, today)
  {
    var n := |chunks| - 1;
    var init := chunks[..n];
    assert AllFindings(chunks, p, today) == AllFindings(init, p, today) + ChunkFindings(chunks[n], p, today);
    if f in ChunkFindings(chunks[n], p, today) {
      k := n;
    } else {
      k := ReportedFindingHasChunk(init, p, today, f);
      assert init[k] == chunks[k];
    }
  }

  /** No chunks, no findings. */
  lemma NoChunksNoFindings(p: Policy, today: Date)
    ensures AllFindings([], p, today) == []
  {
  }

  /** Every finding carries the fixed severity of its rule. */
  lemma SeverityFollowsRule(chunks: seq<Chunk>, p: Policy, today: Date, f: Finding)
    requires f in AllFindings(chunks, p, today)
    ensures f.severity == SeverityOf(f.rule)
  {
    var k := ReportedFindingHasChunk(chunks, p, today, f);
  }

  /**
   * A chunk that repeats one already in the list adds no new finding: its
   * findings collapse onto the earlier ones once duplicates are removed.
   */
  lemma RepeatedChunkAddsNothing(chunks: seq<Chunk>, c: Chunk, p: Policy, today: Date, f: Finding)
    requires c in chunks
    ensures f in AllFindings(chunks + [c], p, today) <==> f in AllFindings(chunks, p, today)
  {
    var longer := chunks + [c];
    assert longer[..|longer| - 1] == chunks;
    if f in ChunkFindings(c, p, today) {
      var k :| 0 <= k < |chunks| && chunks[k] == c;
      ChunkFindingIsReported(chunks, p, today, k, f);
    }
  }

  /**
   * A list without duplicates holds each of its elements exactly once; with
   * the contract of Audit.CheckCompliance, every finding of AllFindings is
   * reported once however many chunks raise it.
   */
  lemma {:induction false} ReportedOnce<T>(s: seq<T>, x: T)
    requires NoDuplicates(s) && x in s
    ensures multiset(s)[x] == 1
  {
    var init, y := s[..|s| - 1], s[|s| - 1];
    assert s == init + [y];
    assert NoDuplicates(init);
    if y == x {
      assert x !in init;
    } else {
      assert x in init;
      ReportedOnce(init, x);
    }
  }

  /**
   * Findings are equal exactly when the tuples of their dictionary items are:
   * the rule name, the severity name and the message. Deduplicating Finding
   * values therefore removes the same entries as deduplicating the tuples.
   */
  lemma SameFindingIffSameItems(a: Finding, b: Finding)
    ensures a == b <==>
      (a.rule.Name(), a.severity.Name(), a.message) == (b.rule.Name(), b.severity.Name(), b.message)
  {
    if a.rule != b.rule {
      assert a.rule.Name() != b.rule.Name() by {
        assert a.rule.Name()[0] != b.rule.Name()[0];
      }
    }
    if a.severity != b.severity {
      assert a.severity.Name() != b.severity.Name() by {
        assert a.severity.Name()[0] != b.severity.Name()[0];
      }
    }
  }

  // --------------------------------------------------- rule 1: blacklist

  lemma {:induction false} VendorFindingsMembers(lowerText: string, src: string, vendors: seq<string>, f: Finding)
    ensures f in VendorFindings(lowerText, src, vendors) <==>
      exists v :: v in vendors && Occurs(v, lowerText) && f == VendorFinding(v, src)
  {
    if vendors != [] {
      var init := vendors[..|vendors| - 1];
      VendorFindingsMembers(lowerText, src, init, f);
      assert forall v :: v in vendors <==> v in init || v == vendors[|vendors| - 1];
    }
  }

  /**
   * Rule 1 over the policy as the rules hold it: a blacklisted-vendor finding
   * is reported exactly for each banned name that occurs in the lower-cased
   * text, with severity CRITICAL and the message naming the vendor and the
   * chunk's source.
   */
  lemma BlacklistRule(c: Chunk, p: Policy, today: Date, f: Finding)
    requires f.rule == BlacklistedVendor
    ensures f in ChunkFindings(c, p, today) <==>
      exists v :: v in p.bannedVendors && Occurs(v, Lower(c.text)) && f == VendorFinding(v, SourceName(c))
  {
    var src := SourceName(c);
    var fs := VendorFindings(Lower(c.text), src, p.bannedVendors);
    var hs := HighValueFindings(c.text, src, p.thresholdCents);
    var ds := DateFindings(src, DateMatches(c.text), today);
    assert f !in hs && f !in ds;
    assert f in ChunkFindings(c, p, today) <==> f in fs;
    VendorFindingsMembers(Lower(c.text), src, p.bannedVendors, f);
  }

  /**
   * Rule 1 over the policy file as written: the match ignores case on both
   * sides, and the message shows the configured name in title case. This is
   * the case-insensitive substring rule of lines 23, 31 and 36-42.
   */
  lemma BlacklistRuleIgnoresCase(c: Chunk, names: seq<string>, threshold: Option<int>, today: Date, f: Finding)
    requires f.rule == BlacklistedVendor
    ensures var p := EffectivePolicy(Some(PolicyFile(Some(names), threshold)));
      f in ChunkFindings(c, p, today) <==>
      exists w :: w in names && Occurs(Lower(w), Lower(c.text)) &&
        f == Finding(BlacklistedVendor, Critical, "Found '" + Title(w) + "' in file '" + SourceName(c) + "'.")
  {
    var p := EffectivePolicy(Some(PolicyFile(Some(names), threshold)));
    BlacklistRule(c, p, today, f);
    if f in ChunkFindings(c, p, today) {
      var v :| v in p.bannedVendors && Occurs(v, Lower(c.text)) && f == VendorFinding(v, SourceName(c));
      var i :| 0 <= i < |p.bannedVendors| && p.bannedVendors[i] == v;
      TitleOfLower(names[i]);
      assert names[i] in names;
    }
    if exists w :: w in names && Occurs(Lower(w), Lower(c.text)) &&
        f == Finding(BlacklistedVendor, Critical, "Found '" + Title(w) + "' in file '" + SourceName(c) + "'.") {
      var w :| w in names && Occurs(Lower(w), Lower(c.text)) &&
        f == Finding(BlacklistedVendor, Critical, "Found '" + Title(w) + "' in file '" + SourceName(c) + "'.");
      var i :| 0 <= i < |names| && names[i] == w;
      TitleOfLower(w);
      assert p.bannedVendors[i] in p.bannedVendors;
    }
  }

  /**
   * Every banned name of the effective policy is already in lower case, so
   * DistinctVendorsDistinctFindings applies to any two of them.
   */
  lemma PolicyNamesAreLower(read: Option<PolicyFile>)
    ensures forall v :: v in EffectivePolicy(read).bannedVendors ==> Lower(v) == v
  {
    var p := EffectivePolicy(read);
    forall v | v in p.bannedVendors
      ensures Lower(v) == v
    {
      var i :| 0 <= i < |p.bannedVendors| && p.bannedVendors[i] == v;
      LowerIdempotent(read.value.bannedVendors.value[i]);
    }
  }

  /**
   * Two different banned names found in chunks of the same source give two
   * different findings, so deduplication never merges them.
   */
  lemma DistinctVendorsDistinctFindings(v1: string, v2: string, src: string)
    requires Lower(v1) == v1 && Lower(v2) == v2 && v1 != v2
    ensures VendorFinding(v1, src) != VendorFinding(v2, src)
  {
    if VendorFinding(v1, src) == VendorFinding(v2, src) {
      var m1 := "Found '" + Title(v1) + "' in file '" + src + "'.";
      var m2 := "Found '" + Title(v2) + "' in file '" + src + "'.";
      assert |Title(v1)| == |Title(v2)|;
      assert Title(v1) == m1[7..7 + |Title(v1)|];
      assert Title(v2) == m2[7..7 + |Title(v2)|];
      TitleInjectiveOnLower(v1, v2);
    }
  }

  // ------------------------------------------------ rule 2: high value

  /** A chunk yields at most one high-value finding, however many amounts exceed the threshold. */
  lemma AtMostOneHighValue(c: Chunk, p: Policy, today: Date, i: int, j: int)
    requires 0 <= i < |ChunkFindings(c, p, today)| && 0 <= j < |ChunkFindings(c, p, today)|
    requires ChunkFindings(c, p, today)[i].rule == HighValueTransaction
    requires ChunkFindings(c, p, today)[j].rule == HighValueTransaction
    ensures i == j
  {
    var src := SourceName(c);
    var fs := VendorFindings(Lower(c.text), src, p.bannedVendors);
    var hs := HighValueFindings(c.text, src, p.thresholdCents);
    var ds := DateFindings(src, DateMatches(c.text), today);
    var all := ChunkFindings(c, p, today);
    assert all == fs + hs + ds;
  }

  /**
   * Rule 2: a high-value finding is reported exactly when the chunk's largest
   * amount (zero when there is none) is strictly above the threshold, and it
   * reports that largest amount, not each amount above the threshold.
   */
  lemma HighValueRule(c: Chunk, p: Policy, today: Date, f: Finding)
    requires f.rule == HighValueTransaction
    ensures f in ChunkFindings(c, p, today) <==>
      MaxParsed(Numerals(c.text)) > p.thresholdCents && f == AmountFinding(MaxParsed(Numerals(c.text)), SourceName(c))
  {
    var src := SourceName(c);
    var fs := VendorFindings(Lower(c.text), src, p.bannedVendors);
    var ds := DateFindings(src, DateMatches(c.text), today);
    assert f !in fs && f !in ds;
  }

  /**
   * The comparison is strict: when no amount of the chunk is above the
   * threshold (in particular when the largest equals it) there is no
   * high-value finding.
   */
  lemma NoHighValueAtOrBelowThreshold(c: Chunk, p: Policy, today: Date, f: Finding)
    requires forall k :: 0 <= k < |Numerals(c.text)| && ParseCents(Numerals(c.text)[k]).Some? ==>
      ParseCents(Numerals(c.text)[k]).value <= p.thresholdCents
    requires p.thresholdCents >= 0
    requires f.rule == HighValueTransaction
    ensures f !in ChunkFindings(c, p, today)
  {
    HighValueRule(c, p, today, f);
    MaxParsedIsMaximum(Numerals(c.text));
  }

  /**
   * The amount a high-value finding shows reads back as the chunk's largest
   * amount: the rendering is itself a numeral of the amount pattern whose
   * value is that maximum.
   */
  lemma HighValueReportsMaximum(c: Chunk, p: Policy, today: Date, cents: nat)
    requires AmountFinding(cents, SourceName(c)) in ChunkFindings(c, p, today)
    ensures cents == MaxParsed(Numerals(c.text))
    ensures IsNumeral(FormatCents(cents)) && ParseCents(FormatCents(cents)) == Some(cents)
  {
    var src := SourceName(c);
    HighValueRule(c, p, today, AmountFinding(cents, src));
    AmountFindingInjective(cents, MaxParsed(Numerals(c.text)), src);
    FormatCentsRoundTrip(cents);
  }

  /** The message of a high-value finding determines the amount it reports. */
  lemma AmountFindingInjective(a: nat, b: nat, src: string)
    requires AmountFinding(a, src) == AmountFinding(b, src)
    ensures a == b
  {
    var prefix := "Amount ";
    var tail := " in '" + src + "' exceeds limit.";
    assert AmountFinding(a, src).message == prefix + FormatCents(a) + tail;
    assert AmountFinding(b, src).message == prefix + FormatCents(b) + tail;
    FormatCentsSameLength(a, b, prefix, tail);
    FormatCentsInjective(a, b);
  }

  lemma FormatCentsSameLength(a: nat, b: nat, prefix: string, tail: string)
    requires prefix + FormatCents(a) + tail == prefix + FormatCents(b) + tail
    ensures FormatCents(a) == FormatCents(b)
  {
    var x := prefix + FormatCents(a) + tail;
    assert |FormatCents(a)| == |FormatCents(b)|;
    assert FormatCents(a) == x[|prefix|..|prefix| + |FormatCents(a)|];
    assert FormatCents(b) == x[|prefix|..|prefix| + |FormatCents(b)|];
  }

  // ---------------------------------------------- rule 3: future dates

  lemma {:induction false} DateFindingsMembers(src: string, dates: seq<string>, today: Date, f: Finding)
    requires forall k :: 0 <= k < |dates| ==> IsDateText(dates[k])
    ensures f in DateFindings(src, dates, today) <==>
      exists ds :: ds in dates && IsDateText(ds) && ParseDate(ds).Some? && IsAfter(ParseDate(ds).value, today)
        && f == DateFinding(ds, src)
  {
    if dates != [] {
      var init := dates[..|dates| - 1];
      assert forall k :: 0 <= k < |init| ==> init[k] == dates[k];
      DateFindingsMembers(src, init, today, f);
      assert forall ds :: ds in dates <==> ds in init || ds == dates[|dates| - 1];
    }
  }

  /**
   * Rule 3: a future-dating finding is reported for each matched `YYYY-MM-DD`
   * string that is a real calendar date strictly after today, and for no
   * other; each such date gets its own finding.
   */
  lemma FutureDateRule(c: Chunk, p: Policy, today: Date, f: Finding)
    requires f.rule == FutureDatingAnomaly
    ensures f in ChunkFindings(c, p, today) <==>
      exists ds :: ds in DateMatches(c.text) && IsDateText(ds) && ParseDate(ds).Some?
        && IsAfter(ParseDate(ds).value, today) && f == DateFinding(ds, SourceName(c))
  {
    var src := SourceName(c);
    var fs := VendorFindings(Lower(c.text), src, p.bannedVendors);
    var hs := HighValueFindings(c.text, src, p.thresholdCents);
    assert f !in fs && f !in hs;
    DateFindingsMembers(src, DateMatches(c.text), today, f);
  }

  /** Different matched dates in chunks of the same source give different findings. */
  lemma DistinctDatesDistinctFindings(d1: string, d2: string, src: string)
    requires IsDateText(d1) && IsDateText(d2) && d1 != d2
    ensures DateFinding(d1, src) != DateFinding(d2, src)
  {
    var m1 := DateFinding(d1, src).message;
    var m2 := DateFinding(d2, src).message;
    assert m1[12..22] == d1;
    assert m2[12..22] == d2;
  }
}
