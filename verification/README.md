# Invoice compliance rule engine

A Dafny model of the compliance checker of an invoice audit system.

## What it checks

`check_compliance` (backend/app/audit.py) receives the text chunks retrieved for a question. Each chunk carries the name of the file it came from. Every chunk is checked against three rules under a small policy: a list of banned vendor names and a manager-approval threshold.

1. **Blacklisted vendor** (CRITICAL). Each banned name is matched case-insensitively as a substring of the chunk. Each name found raises its own finding, naming the vendor in title case.
2. **High value transaction** (HIGH).
   - The chunk is scanned for amounts introduced by `INR`, `Rs.`, `₹` or `$`, in any case and followed by optional whitespace. An amount is digits and commas, optionally followed by `.dd`.
   - The commas are removed and the largest value is kept, starting from zero.
   - If that maximum is strictly above the threshold, one finding is raised for it. The message renders the value with thousands separators and two decimals.
3. **Future dating anomaly** (MEDIUM). Every `YYYY-MM-DD` in the chunk that is a real calendar date strictly after today raises its own finding.

The findings of all chunks are collected in order, and duplicates are then removed.

## How the model is organised

The model follows the source's own shape:
- The pass over chunks is a method with loops: `Audit.CheckCompliance` calls `Audit.CheckChunk`, which runs `MatchVendors`, `LargestAmount` and `MatchFutureDates`.
- `CheckChunk`, `MatchVendors`, `LargestAmount` and `MatchFutureDates` are each proved equal to a specification function: `ChunkFindings`, `VendorFindings`, `MaxParsed` and `DateFindings`.
- The loop of `CheckCompliance` is proved to collect exactly `AllFindings`. Its result, after duplicates are removed, holds each of those findings once, in no promised order.
- The rules are then proved about those functions.

The modules are:
- **Wrappers**: `Option`.
- **Text**: ASCII `str.lower`/`str.title`, substring search, Python's `\s` class and decimal digit strings.
- **Amounts**:
  - The amount pattern as a leftmost, non-overlapping scanner.
  - Numeral to exact cents.
  - The `{:,.2f}` rendering, with its round trip back to cents.
- **Dates**:
  - The date pattern scanner.
  - `strptime` validity, including the Gregorian leap-year rule.
  - Date comparison, proved equal to comparing day numbers.
- **Audit**: findings, the policy and its defaults, the specification functions, and the methods.
- **Properties**: the rules as lemmas over `ChunkFindings` and `AllFindings`.
- **Scenarios**: worked cases on concrete chunks:
  - the 10000 threshold boundary;
  - the largest of two amounts;
  - the month-13 and leap-day rejections;
  - a future and a past date;
  - the case-insensitive blacklist match;
  - a finding raised by two chunks being reported once.

Amounts and thresholds are whole numbers of cents, so 10000 is `1_000_000`. The policy file as read, `None` when reading or parsing fails, is a parameter, and so is today's date.

Three behaviours of the code that the model keeps:
- The default vendor list is an empty list.
- The threshold is not required to be positive.
- The only amount match that is skipped is one that is nothing but commas. `float` accepts every other numeral the pattern can capture, so the source's `except` branch never fires.

## Model

| member | source | states |
|---|---|---|
| Audit.EffectivePolicy | backend/app/audit.py:10-24 | a failed read gives no banned vendors and a 10000 threshold; a missing vendor list gives none, a missing threshold gives 10000; every banned name is lower-cased, in order |
| Audit.LoadBlacklist | backend/app/audit.py:10-15 | the policy file as read, or, when reading or parsing fails, no banned vendors and a 10000 threshold; its effect on the rules is stated by EffectivePolicy |
| Audit.SourceName | backend/app/audit.py:33 | the chunk's `source` entry, or "Unknown File" when it has none; every finding names it (BlacklistRule, HighValueRule, FutureDateRule) |
| Audit.VendorFinding | backend/app/audit.py:38-42 | the CRITICAL "Blacklisted Vendor" finding "Found '<vendor title-cased>' in file '<source>'."; DistinctVendorsDistinctFindings shows the message tells vendors apart |
| Audit.AmountFinding | backend/app/audit.py:56-60 | the HIGH "High Value Transaction" finding "Amount <amount, grouped, two decimals> in '<source>' exceeds limit."; AmountFindingInjective shows the message determines the amount |
| Audit.DateFinding | backend/app/audit.py:69-73 | the MEDIUM "Future Dating Anomaly" finding "Future date <date string> detected in '<source>'."; DistinctDatesDistinctFindings shows the message tells dates apart |
| Audit.HighValueFindings | backend/app/audit.py:55-60 | a chunk gives at most one high-value finding, with severity HIGH; HighValueRule says it is raised exactly when the largest amount is strictly above the threshold, and reports that amount |
| Audit.ChunkFindings | backend/app/audit.py:29-74 | the findings of one chunk in append order; CheckChunk computes it, and BlacklistRule, HighValueRule and FutureDateRule characterise each rule's part |
| Audit.AllFindings | backend/app/audit.py:26-74 | the flags of all chunks before deduplication; ChunkFindingIsReported and ReportedFindingHasChunk state that it holds exactly the findings of its chunks |
| Audit.VendorFindings | backend/app/audit.py:36-42 | every blacklist finding is CRITICAL and there are at most as many as banned names |
| Audit.MatchVendors | backend/app/audit.py:36-42 | the loop over banned names appends exactly the findings of VendorFindings, in order |
| Audit.LargestAmount | backend/app/audit.py:46-53 | the running maximum over the matched numerals, starting at zero, equals MaxParsed (its maximality is MaxParsedIsMaximum) |
| Audit.DateFindings | backend/app/audit.py:65-74 | every future-date finding is MEDIUM and there is at most one per matched date string |
| Audit.MatchFutureDates | backend/app/audit.py:65-74 | the loop over matched dates appends exactly the findings of DateFindings, in order |
| Audit.CheckChunk | backend/app/audit.py:29-74 | one chunk's findings are its vendor findings, then at most one high-value finding, then its date findings |
| Audit.Dedup | backend/app/audit.py:76-78 | the result has no two equal findings and holds exactly the findings of its input |
| Audit.CheckCompliance | backend/app/audit.py:17-80 | the result has no duplicates, holds exactly the findings raised by some chunk under the effective policy, and is empty for no chunks |
| Text.Lower | backend/app/audit.py:23 | `str.lower` over ASCII: each character is mapped to its lower-case form and the length is kept; LowerOfTitle relates it to title case, LowerIdempotent says applying it twice changes nothing, and PolicyNamesAreLower says every banned name is in its image |
| Text.Title | backend/app/audit.py:41 | `str.title` over ASCII: a letter after a non-letter or at the start is upper-cased and every other letter is lower-cased; TitleOfLower and TitleInjectiveOnLower state what the message relies on |
| Text.Occurs | backend/app/audit.py:37 | Python's `in` on strings: the name is a contiguous piece of the text; BlacklistRule states the rule over it |
| Text.IsSpace | backend/app/audit.py:45 | the characters `\s` matches, those for which `str.isspace()` holds; SpacesEnd consumes exactly these |
| Text.LowerOfTitle | backend/app/audit.py:41 | title-casing changes only case: lower-casing the title-cased name gives the lower-cased name |
| Text.TitleOfLower | backend/app/audit.py:41 | title-casing a name that was lower-cased first gives the same text as title-casing the name as configured |
| Text.LowerIdempotent | backend/app/audit.py:31 | lower-casing twice is lower-casing once |
| Text.TitleInjectiveOnLower | backend/app/audit.py:41 | two different lower-cased names never show the same title-cased name |
| Text.PadDigitsOfValue | backend/app/audit.py:67 | a fixed-width digit field read as a number and written back zero-padded is the same field |
| Amounts.DecimalCents | backend/app/audit.py:51 | the value in cents of a comma-free numeral, digits then optionally `.dd`; PointCents states it for a point and two digits, and FormatCentsRoundTrip shows it inverts the rendering |
| Amounts.ParseCents | backend/app/audit.py:48-53 | a captured numeral's value in cents, or none when it is skipped; SkippedIffOnlyCommas says it is skipped exactly when it is only commas, and FormatCentsRoundTrip says it reads every rendered amount back |
| Amounts.MaxParsed | backend/app/audit.py:46-53 | `max_found` after the loop; LargestAmount computes it, and MaxParsedIsMaximum says it is the largest parsed value, or zero |
| Amounts.FormatCents | backend/app/audit.py:59 | `{:,.2f}` of a whole number of cents; FormatCentsRoundTrip, FormatCentsIsNumeral and FormatCentsInjective state that it reads back to the same amount and tells amounts apart |
| Amounts.PointCents | backend/app/audit.py:51 | a numeral with a point and two digits is worth its integer part times 100 plus the two digits |
| Amounts.MarkerAt | backend/app/audit.py:45 | a currency marker starts at a position exactly when `INR`, `Rs.`, `₹` or `$` appears there, ignoring ASCII case |
| Amounts.SpacesEnd | backend/app/audit.py:45 | `\s*` consumes only whitespace and stops at the first non-whitespace character or the end |
| Amounts.DigitsEnd | backend/app/audit.py:45 | `[\d,]+` consumes only digits and commas and stops at the first other character or the end |
| Amounts.MatchAt | backend/app/audit.py:45 | a match starts at a position exactly when a marker, optional whitespace and a digit or comma follow; the captured group is a numeral inside the text |
| Amounts.Scan | backend/app/audit.py:45 | every reported match lies inside the text at or after the starting position, with its group after its marker |
| Amounts.ScanFindsMatches | backend/app/audit.py:45 | every reported span is the match the pattern makes at its start |
| Amounts.ScanOrdered | backend/app/audit.py:45 | reported matches come in order and do not overlap |
| Amounts.ScanMissesNothing | backend/app/audit.py:45 | every position where a match could begin lies inside a reported match |
| Amounts.Numerals | backend/app/audit.py:45 | every captured amount string is digits and commas, optionally followed by `.dd` |
| Amounts.RemoveCommas | backend/app/audit.py:48 | the cleaned string holds no comma |
| Amounts.RemoveCommasAppend | backend/app/audit.py:48 | removing commas distributes over concatenation |
| Amounts.RemoveCommasEmpty | backend/app/audit.py:48-50 | the cleaned string is empty exactly when the numeral is only commas |
| Amounts.SkippedIffOnlyCommas | backend/app/audit.py:48-53 | a captured numeral yields no value exactly when it is only commas |
| Amounts.MaxParsedIsMaximum | backend/app/audit.py:46-53 | the maximum is at least every parsed value, and it is either zero or the value of one of the numerals |
| Amounts.GroupedShape | backend/app/audit.py:59 | the thousands-grouped integer part is non-empty and made of digits and commas |
| Amounts.GroupedValue | backend/app/audit.py:59 | removing the grouping commas gives the digits of the integer part |
| Amounts.FormatCentsIsNumeral | backend/app/audit.py:59 | the rendered amount is itself a numeral the amount pattern captures |
| Amounts.FormatCentsRoundTrip | backend/app/audit.py:59 | parsing the rendered amount gives back the same number of cents |
| Amounts.RenderedClean | backend/app/audit.py:59 | the rendered amount without its commas reads back as the same number of cents |
| Amounts.FormatCentsInjective | backend/app/audit.py:59 | different amounts are rendered differently |
| Dates.IsValid | backend/app/audit.py:67 | the dates strptime accepts: year 1-9999, month 1-12, day within the month by the Gregorian leap rule; ParsesIffSpellsRealDate ties it to ParseDate |
| Dates.ParseDate | backend/app/audit.py:67 | `strptime(date_str, "%Y-%m-%d")` on a matched string; ParsesIffSpellsRealDate, ParseDateText and DateTextOfParse say it accepts exactly the spellings of real dates and inverts them |
| Dates.IsAfter | backend/app/audit.py:68 | `inv_date > today` for a midnight date against today's date; AfterIffLaterDay says it agrees with comparing day numbers |
| Dates.DaysInMonth | backend/app/audit.py:67 | every month has between 28 and 31 days |
| Dates.ScanDates | backend/app/audit.py:63 | every reported position starts a `\d{4}-\d{2}-\d{2}` match, and the matches come in order without overlap |
| Dates.DateScanMissesNothing | backend/app/audit.py:63 | every position where the date pattern matches lies inside a reported match |
| Dates.DateMatches | backend/app/audit.py:63 | every matched string is exactly ten characters in the `dddd-dd-dd` shape |
| Dates.ParsesIffSpellsRealDate | backend/app/audit.py:66-67 | a matched `YYYY-MM-DD` string parses exactly when it is the zero-padded spelling of a real date (years 1-9999, months 1-12, days within the month) |
| Dates.ParseDateText | backend/app/audit.py:67 | every real date, written as `YYYY-MM-DD`, parses back to itself |
| Dates.DateTextOfParse | backend/app/audit.py:67 | a matched string that parses is the `YYYY-MM-DD` spelling of its date |
| Dates.YearLength | backend/app/audit.py:67 | a year has 366 days exactly when it is a leap year, else 365 |
| Dates.DaysBeforeMonthGrows | backend/app/audit.py:68 | a later month of the same year starts after the earlier month ends |
| Dates.DaysBeforeYearGrows | backend/app/audit.py:68 | a later year starts after the earlier year ends |
| Dates.AfterMeansLaterDay | backend/app/audit.py:68 | a date after another falls on a later day |
| Dates.AfterIffLaterDay | backend/app/audit.py:68 | comparing year, month and day in that order agrees, in both directions, with comparing day numbers |
| Properties.ChunkFindingIsReported | backend/app/audit.py:29-74 | every finding of any chunk in the list is among the findings collected |
| Properties.ReportedFindingHasChunk | backend/app/audit.py:29-74 | every collected finding was raised by some chunk of the list |
| Properties.NoChunksNoFindings | backend/app/audit.py:26-29 | no chunks, no findings |
| Properties.SeverityFollowsRule | backend/app/audit.py:38-72 | every finding carries its rule's fixed severity: CRITICAL, HIGH or MEDIUM |
| Properties.RepeatedChunkAddsNothing | backend/app/audit.py:76-78 | adding a chunk already in the list adds no new finding |
| Properties.SameFindingIffSameItems | backend/app/audit.py:76-78 | two findings are equal exactly when their (rule name, severity name, message) tuples are, so removing duplicate findings removes the same entries as the source's set of item tuples |
| Properties.ReportedOnce | backend/app/audit.py:78 | a list without duplicates holds each of its elements exactly once |
| Properties.VendorFindingsMembers | backend/app/audit.py:36-42 | a finding is a blacklist finding of the text exactly when some banned name occurs in it and the finding names that vendor and the source |
| Properties.BlacklistRule | backend/app/audit.py:36-42 | a chunk raises a blacklist finding exactly for each banned name found in its lower-cased text |
| Properties.BlacklistRuleIgnoresCase | backend/app/audit.py:23-42 | for a policy file as written, a name is found regardless of case on either side, and the message shows the configured name title-cased |
| Properties.PolicyNamesAreLower | backend/app/audit.py:23 | every banned name of the effective policy is already lower-case, so DistinctVendorsDistinctFindings applies to any two of them |
| Properties.DistinctVendorsDistinctFindings | backend/app/audit.py:41 | different banned names give different findings, so deduplication keeps both |
| Properties.AtMostOneHighValue | backend/app/audit.py:55-60 | a chunk raises at most one high-value finding |
| Properties.HighValueRule | backend/app/audit.py:45-60 | a chunk raises a high-value finding exactly when its largest amount is strictly above the threshold, and the finding reports that amount |
| Properties.NoHighValueAtOrBelowThreshold | backend/app/audit.py:55 | when no amount exceeds a non-negative threshold there is no high-value finding |
| Properties.HighValueReportsMaximum | backend/app/audit.py:55-59 | the amount a high-value finding reports is the chunk's maximum, and its rendering reads back to it |
| Properties.AmountFindingInjective | backend/app/audit.py:59 | two high-value findings for the same source are equal only when they report the same amount |
| Properties.DateFindingsMembers | backend/app/audit.py:65-74 | a finding is a date finding exactly when some matched string is a real date after today and the finding names it |
| Properties.FutureDateRule | backend/app/audit.py:63-74 | a chunk raises one future-date finding for each matched real date strictly after today, and no other |
| Properties.DistinctDatesDistinctFindings | backend/app/audit.py:72 | different date strings give different findings, so deduplication keeps both |
| Scenarios.InrMatch | backend/app/audit.py:45 | in "INR 10,000" the pattern captures "10,000" and nothing else |
| Scenarios.TenThousand | backend/app/audit.py:48-51 | "10,000" cleans to "10000" and is 10000.00 |
| Scenarios.BoundaryNotFlagged | backend/app/audit.py:55 | "INR 10,000" against a 10000 threshold raises no high-value finding |
| Scenarios.InrCentsMatch | backend/app/audit.py:45 | in "INR 10,000.01" the pattern captures "10,000.01" |
| Scenarios.TenThousandOne | backend/app/audit.py:48-51 | "10,000.01" is 10000.01 |
| Scenarios.FormatTenThousandOne | backend/app/audit.py:59 | 10000.01 is rendered "10,000.01" |
| Scenarios.JustAboveFlagged | backend/app/audit.py:55-60 | "INR 10,000.01" against a 10000 threshold is flagged, and the message shows 10,000.01 |
| Scenarios.TwoAmountsMatch | backend/app/audit.py:45 | in "INR 1,000 $ 50,000" the pattern captures "1,000" and "50,000", in that order |
| Scenarios.MaxOfTwo | backend/app/audit.py:46-53 | the running maximum over two parsed numerals is the larger one |
| Scenarios.FormatFiftyThousand | backend/app/audit.py:59 | 50000 is rendered "50,000.00" |
| Scenarios.OnlyMaximumFlagged | backend/app/audit.py:45-60 | "INR 1,000 $ 50,000" against a 10000 threshold raises exactly one high-value finding, for 50,000.00 |
| Scenarios.ThirteenthMonthRejected | backend/app/audit.py:67 | "2024-13-01" is not a date |
| Scenarios.LeapDayExamples | backend/app/audit.py:67 | "2023-02-29" is not a date and "2024-02-29" is |
| Scenarios.OneDateMatch | backend/app/audit.py:63 | a text that is exactly one date string has that string as its only match |
| Scenarios.FutureDateFlagged | backend/app/audit.py:63-74 | evaluated on 2025-01-01, "2030-01-01" raises exactly one future-date finding, naming it |
| Scenarios.PastDateNotFlagged | backend/app/audit.py:63-74 | evaluated on 2025-01-01, "2020-01-01" raises no future-date finding |
| Scenarios.DarkWebTitle | backend/app/audit.py:41 | "darkweb solutions ltd" title-cases to "Darkweb Solutions Ltd" |
| Scenarios.DarkWebPolicy | backend/app/audit.py:23 | the configured "DarkWeb Solutions Ltd" becomes the banned name "darkweb solutions ltd" |
| Scenarios.DarkWebFlagged | backend/app/audit.py:36-42 | a chunk "darkweb solutions ltd" raises exactly one blacklist finding, showing "Darkweb Solutions Ltd" and the source |
| Scenarios.DarkWebInBoth | backend/app/audit.py:29-42 | two such chunks raise the blacklist finding |
| Scenarios.OnlyDarkWebInBoth | backend/app/audit.py:29-42 | two such chunks raise no other blacklist finding |
| Scenarios.DuplicateChunksReportedOnce | backend/app/audit.py:76-78 | two chunks of the same source naming the banned vendor give the blacklist finding exactly once in any result meeting the engine's contract |

## Left out

- Reading and JSON-parsing the policy file (backend/app/audit.py:11-13) is I/O. The outcome is a parameter, `None` when the read or parse fails.
- Policy file shapes that `PolicyFile` does not hold are not modelled. A top-level JSON value that is not an object makes the source raise at `data.get` (backend/app/audit.py:23).
- A `banned_vendors` value that is null, a number, or a list with a non-string element makes the source raise at backend/app/audit.py:23.
- A `banned_vendors` value that is a string or an object is not modelled. The source does not raise: it bans each character of the string, or each key of the object, lower-cased. Passing those characters or keys as the list of names models it.
- A `risk_thresholds` value that is not an object makes the source raise at backend/app/audit.py:24.
- A threshold that is not a number makes the source raise at the comparison on backend/app/audit.py:55, once a chunk is checked.
- Audit.EffectivePolicy: the threshold is a whole number of cents. A threshold with fractions of a cent, or a non-numeric one, is not modelled.
- Audit.LargestAmount: values are exact cents rather than binary floating point. Numerals too long for a float to hold exactly, and the rounding that `{:,.2f}` would then show, are not modelled.
- Audit.CheckCompliance: one `today` is used for the whole call, while the source reads the wall clock again for each chunk. A call running across midnight is not modelled.
- Audit.CheckCompliance: the output order is left open, as the source's set comprehension leaves it. Audit.Dedup keeps first occurrences, but no contract depends on that.
- Text.Lower and Text.Title map ASCII letters only. Full Unicode `str.lower`/`str.title` and the Unicode matches of `re.IGNORECASE` are not modelled; under the latter, `ſ` matches `s` and `İ` matches `i`.
- `\d` is modelled as the ASCII digits only; Python also accepts other Unicode decimal digits.
- backend/app/ingest.py, backend/app/rag_engine.py, backend/app/main.py, frontend/app.py and setup_data.py are not part of this model. They cover text extraction, retrieval, the language-model call, the HTTP endpoint, the UI and the data download.
