/**
 * The compliance rule engine (`check_compliance` in backend/app/audit.py): every
 * retrieved chunk of invoice text is checked against three rules (a banned
 * vendor is named, an amount exceeds the approval threshold, a date lies in the
 * future) and the findings of all chunks are returned without duplicates.
 *
 * The policy file read is a parameter (None when the read or the JSON parse
 * fails), and so is the current date.
 */
module Audit {
  import opened Wrappers
  import opened Text
  import opened Amounts
  import opened Dates

  datatype Rule = BlacklistedVendor | HighValueTransaction | FutureDatingAnomaly {
    /** The rule's name as it appears in a finding. */
    function Name(): string {
      match this
      case BlacklistedVendor => "Blacklisted Vendor"
      case HighValueTransaction => "High Value Transaction"
      case FutureDatingAnomaly => "Future Dating Anomaly"
    }
  }

  datatype Severity = Critical | High | Medium {
    function Name(): string {
      match this
      case Critical => "CRITICAL"
      case High => "HIGH"
      case Medium => "MEDIUM"
    }
  }

  /** The severity every finding of a rule carries. */
  function SeverityOf(r: Rule): Severity {
    match r
    case BlacklistedVendor => Critical
    case HighValueTransaction => High
    case FutureDatingAnomaly => Medium
  }

  /** One finding: the `{"rule", "severity", "message"}` dictionary. */
  datatype Finding = Finding(rule: Rule, severity: Severity, message: string)

  /** A retrieved chunk: its text and the `source` entry of its metadata, if any. */
  datatype Chunk = Chunk(text: string, source: Option<string>)

  const UnknownSource: string := "Unknown File"

  /** `doc.metadata.get("source", "Unknown File")`. */
  function SourceName(c: Chunk): string {
    c.source.GetOr(UnknownSource)
  }

  // ------------------------------------------------------------------ policy

  /**
   * The contents of the policy file: `banned_vendors`, and
   * `risk_thresholds.require_manager_approval_above` in cents; None where the
   * key (or, for the threshold, the `risk_thresholds` object) is absent.
   */
  datatype PolicyFile = PolicyFile(bannedVendors: Option<seq<string>>, approvalThreshold: Option<int>)

  /** 10000, in cents. */
  const DefaultThresholdCents: int := 1_000_000

  /** What `load_blacklist` returns when the file cannot be read or parsed. */
  const DefaultPolicyFile: PolicyFile := PolicyFile(Some([]), Some(DefaultThresholdCents))

  /** `load_blacklist()`, given the outcome of reading and parsing the file. */
  function LoadBlacklist(read: Option<PolicyFile>): PolicyFile {
    read.GetOr(DefaultPolicyFile)
  }

  /** The policy as the rules use it: vendor names lower-cased, threshold in cents. */
  datatype Policy = Policy(bannedVendors: seq<string>, thresholdCents: int)

  /**
   * Lines 22-24 of the source: the banned names lower-cased, each missing
   * entry replaced by its default.
   */
  function EffectivePolicy(read: Option<PolicyFile>): (p: Policy)
    ensures read.None? ==> p == Policy([], DefaultThresholdCents)
    ensures read.Some? && read.value.bannedVendors.None? ==> p.bannedVendors == []
    ensures read.Some? && read.value.bannedVendors.Some? ==>
      |p.bannedVendors| == |read.value.bannedVendors.value| &&
      forall i :: 0 <= i < |p.bannedVendors| ==> p.bannedVendors[i] == Lower(read.value.bannedVendors.value[i])
    ensures read.Some? && read.value.approvalThreshold.None? ==> p.thresholdCents == DefaultThresholdCents
    ensures read.Some? && read.value.approvalThreshold.Some? ==> p.thresholdCents == read.value.approvalThreshold.value
  {
    var data := LoadBlacklist(read);
    var vendors := data.bannedVendors.GetOr([]);
    Policy(seq(|vendors|, i requires 0 <= i < |vendors| => Lower(vendors[i])),
           data.approvalThreshold.GetOr(DefaultThresholdCents))
  }

  // ---------------------------------------------------------------- findings

  function VendorFinding(vendor: string, src: string): Finding {
    Finding(BlacklistedVendor, Critical, "Found '" + Title(vendor) + "' in file '" + src + "'.")
  }

  function AmountFinding(cents: nat, src: string): Finding {
    Finding(HighValueTransaction, High, "Amount " + FormatCents(cents) + " in '" + src + "' exceeds limit.")
  }

  function DateFinding(date: string, src: string): Finding {
    Finding(FutureDatingAnomaly, Medium, "Future date " + date + " detected in '" + src + "'.")
  }

  /** Rule 1 over the (lower-cased) vendors: one finding per vendor that occurs in the lower-cased text. */
  function VendorFindings(lowerText: string, src: string, vendors: seq<string>): (fs: seq<Finding>)
    ensures forall f :: f in fs ==> f.rule == BlacklistedVendor && f.severity == Critical
    ensures |fs| <= |vendors|
  {
    if vendors == [] then []
    else
      var v := vendors[|vendors| - 1];
      VendorFindings(lowerText, src, vendors[..|vendors| - 1])
      + (if Occurs(v, lowerText) then [VendorFinding(v, src)] else [])
  }

  /** Rule 2: one finding when the largest amount of the chunk is strictly above the threshold. */
  function HighValueFindings(text: string, src: string, thresholdCents: int): (fs: seq<Finding>)
    ensures |fs| <= 1
    ensures forall f :: f in fs ==> f.rule == HighValueTransaction && f.severity == High
  {
    var maxFound := MaxParsed(Numerals(text));
    if maxFound > thresholdCents then [AmountFinding(maxFound, src)] else []
  }

  /** Rule 3 over the matched date strings: one finding per real date after `today`. */
  function DateFindings(src: string, dates: seq<string>, today: Date): (fs: seq<Finding>)
    requires forall k :: 0 <= k < |dates| ==> IsDateText(dates[k])
    ensures forall f :: f in fs ==> f.rule == FutureDatingAnomaly && f.severity == Medium
    ensures |fs| <= |dates|
  {
    if dates == [] then []
    else
      var ds := dates[|dates| - 1];
      DateFindings(src, dates[..|dates| - 1], today)
      + (match ParseDate(ds)
         case Some(d) => if IsAfter(d, today) then [DateFinding(ds, src)] else []
         case None => [])
  }

  /** The findings one chunk contributes, in the order the source appends them. */
  function ChunkFindings(c: Chunk, policy: Policy, today: Date): seq<Finding> {
    var src := SourceName(c);
    VendorFindings(Lower(c.text), src, policy.bannedVendors)
    + HighValueFindings(c.text, src, policy.thresholdCents)
    + DateFindings(src, DateMatches(c.text), today)
  }

  /** The `flags` list before duplicates are removed: the findings of every chunk, in order. */
  function AllFindings(chunks: seq<Chunk>, policy: Policy, today: Date): seq<Finding> {
    if chunks == [] then []
    else AllFindings(chunks[..|chunks| - 1], policy, today) + ChunkFindings(chunks[|chunks| - 1], policy, today)
  }

  // ------------------------------------------------------------ deduplication

  predicate NoDuplicates<T(==)>(s: seq<T>) {
    forall i, j :: 0 <= i < j < |s| ==> s[i] != s[j]
  }

  /**
   * Line 78 of the source: every element kept once. The source goes through a
   * set, so its order is arbitrary; this keeps first occurrences, and callers
   * rely only on the contract, which leaves the order open.
   */
  function Dedup<T(==, !new)>(s: seq<T>): (r: seq<T>)
    ensures NoDuplicates(r)
    ensures forall x :: x in r <==> x in s
  {
    if s == [] then []
    else
      var rest := Dedup(s[..|s| - 1]);
      var x := s[|s| - 1];
      assert forall y :: y in s <==> y in s[..|s| - 1] || y == x;
      if x in rest then rest else rest + [x]
  }

  // ------------------------------------------------------------------ engine

  /** Rule 1 for one chunk (lines 36-42 of the source): the loop over the banned vendors. */
  method MatchVendors(textLower: string, src: string, banned: seq<string>) returns (found: seq<Finding>)
    ensures found == VendorFindings(textLower, src, banned)
  {
    found := [];
    for j := 0 to |banned|
      invariant found == VendorFindings(textLower, src, banned[..j])
    {
      assert banned[..j + 1][..j] == banned[..j];
      if Occurs(banned[j], textLower) {
        found := found + [VendorFinding(banned[j], src)];
      }
    }
    assert banned[..|banned|] == banned;
  }

  /** The running maximum of rule 2 (lines 46-53 of the source); MaxParsedIsMaximum says what it is. */
  method LargestAmount(amounts: seq<string>) returns (maxFound: nat)
    requires forall k :: 0 <= k < |amounts| ==> IsNumeral(amounts[k])
    ensures maxFound == MaxParsed(amounts)
  {
    maxFound := 0;
    for j := 0 to |amounts|
      invariant maxFound == MaxParsed(amounts[..j])
    {
      assert amounts[..j + 1][..j] == amounts[..j];
      var parsed := ParseCents(amounts[j]);
      if parsed.Some? && parsed.value > maxFound {
        maxFound := parsed.value;
      }
    }
    assert amounts[..|amounts|] == amounts;
  }

  /** Rule 3 for one chunk (lines 65-74 of the source): the loop over the matched dates. */
  method MatchFutureDates(src: string, dates: seq<string>, today: Date) returns (found: seq<Finding>)
    requires forall k :: 0 <= k < |dates| ==> IsDateText(dates[k])
    ensures found == DateFindings(src, dates, today)
  {
    found := [];
    for j := 0 to |dates|
      invariant found == DateFindings(src, dates[..j], today)
    {
      assert dates[..j + 1][..j] == dates[..j];
      var parsed := ParseDate(dates[j]);
      if parsed.Some? && IsAfter(parsed.value, today) {
        found := found + [DateFinding(dates[j], src)];
      }
    }
    assert dates[..|dates|] == dates;
  }

  /** The body of the loop over chunks (lines 30-74 of the source): all three rules on one chunk. */
  method CheckChunk(chunk: Chunk, policy: Policy, today: Date) returns (flags: seq<Finding>)
    ensures flags == ChunkFindings(chunk, policy, today)
  {
    var text := chunk.text;
    var src := SourceName(chunk);

    flags := MatchVendors(Lower(text), src, policy.bannedVendors);

    var maxFound := LargestAmount(Numerals(text));
    if maxFound > policy.thresholdCents {
      flags := flags + [AmountFinding(maxFound, src)];
    }

    var dateFlags := MatchFutureDates(src, DateMatches(text), today);
    flags := flags + dateFlags;
  }

  /**
   * `check_compliance`: runs the three rules over every chunk, appending to
   * `flags`, then removes duplicate findings. The result holds each finding of
   * AllFindings exactly once, in an unspecified order.
   */
  method CheckCompliance(chunks: seq<Chunk>, read: Option<PolicyFile>, today: Date)
    returns (findings: seq<Finding>)
    ensures NoDuplicates(findings)
    ensures forall f :: f in findings <==> f in AllFindings(chunks, EffectivePolicy(read), today)
    ensures chunks == [] ==> findings == []
  {
    var policy := EffectivePolicy(read);
    var flags: seq<Finding> := [];

    for k := 0 to |chunks|
      invariant flags == AllFindings(chunks[..k], policy, today)
    {
      var chunkFlags := CheckChunk(chunks[k], policy, today);
      flags := flags + chunkFlags;
      assert chunks[..k + 1][..k] == chunks[..k];
    }
    assert chunks[..|chunks|] == chunks;

    findings := Dedup(flags);
  }
}
