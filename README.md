# AO3 work extractor, modelled in Dafny

The script `extract-ao3-file.py` reads a list of PDF URLs. For each document it:

- downloads the file and joins the text of its pages;
- finds every `http://archiveofourown.org/works/<id>` reference in the text;
- for each work URL it has not seen before: claims the URL, fetches the work page (three attempts with exponential backoff), and builds a record.

The record holds the page's title, summary and statistics. When the page answers 404, it holds what the PDF itself says:

- a line-scan parser gives a title and metadata;
- a regular expression gives the summary;
- a file-name title is the fallback.

When all attempts fail, it holds the line-scan title and summary.

Records accumulate in `all_results`. A document is logged as processed once its references are all handled. A later run resumes from `results.json` and the log unless the user asks for a reset. At the end, the results are written to `results.json` and to an HTML page with one block per record.

The Dafny project models this core. Each module follows one part of the script:

- `Text` (text.dfy): `str.strip`, `str.lower`, `str.replace`, `str.join` and line filtering, over ASCII
- `Dict` (dict.dfy): Python's insertion-ordered dict
- `Records` (records.dfy): the result record and its URL set
- `WorkLinks` (work_links.dfy): `pattern.findall` for the reference pattern, and the canonical work URL
- `FilenameTitle` (filename_title.dfy): `fallback_title_from_filename`
- `SummaryRegex` (summary_regex.dfy): `extract_summary_from_text`, written as an explicit scanner for its regular expression
- `PdfScan` (pdf_scan.dfy): `extract_title_summary_from_pdf`
- `Scrape` (scrape.dfy): `scrape_ao3_stats`
- `Report` (report.dfy): the HTML renderer
- `Pipeline` (pipeline.dfy): the start-up block, `process_pdf`, the run over the input list, and the files written at the end

Each operation that the script performs with a loop has two forms:

- a specification function, with the properties proved about it as lemmas;
- a method that runs the loop, whose `ensures` ties its result or its new state to that function.

The ledger `all_results`, `existing_work_urls` and `processed_pdfs`, together with the files and the sleeps, is the class `Pipeline.Ledger`. Its methods update these fields in place. The function `State()` bundles them into the value `LedgerState`, which the specification functions use.

The outside world enters as parameters:

- `Env.download` gives the page texts of a document, or `None` when the download or the PDF reading fails;
- `Env.net` gives the answer to attempt k for a work URL (a status code and the parts of the page the scraper reads, or a request error);
- `loggedIn` is the outcome of the login, which the script asks for after its start-up block;
- sleeps are recorded in milliseconds instead of being slept.

Some behaviour of the script is kept as written:

- The debug print at line 123 reads `lines[0]`. On a text without lines it raises IndexError before the "Unknown Title" default at line 125 can apply. `PdfScan.ScanLines` therefore fails with `NoLines` on such a text. In the 404 and failure branches of `process_pdf`, that exception escapes into the `except` at line 266, and the document is not logged.
- The title of a 404 record is never empty, because the parser fails rather than return an empty title. So the fallback from the file name at line 228 is never taken (`Pipeline.NotFoundRecordTitle`). It is still modelled.

## Model

| member | source | states |
|---|---|---|
| Text.Strip | extract-ao3-file.py:122 | `str.strip()`: the result is the slice of the text left after removing a run of whitespace at the front and one at the back; it has no whitespace at either end, and a text without such whitespace comes back unchanged |
| Text.StripEmpty | extract-ao3-file.py:122 | `strip()` is empty exactly for a text of whitespace only, which the `if line.strip()` filters drop |
| Text.NonBlank | extract-ao3-file.py:277-278 | every line the list comprehension keeps is non-empty and stripped |
| Text.NonBlankAppend | extract-ao3-file.py:277-278 | the comprehension keeps input order: the lines of a concatenation are the lines of the first part followed by those of the second |
| Text.NonBlankOne | extract-ao3-file.py:277-278 | a single piece contributes exactly its strip when that is non-empty, and nothing otherwise; with `NonBlankAppend` this fixes the result line by line, in order and with repeats |
| Text.NonBlankMembers | extract-ao3-file.py:277-278 | a text is kept exactly when it is the non-empty strip of some input line (and so for the parser's lines at line 122) |
| Text.LowerChar | extract-ao3-file.py:108 | `lower()` turns an upper-case letter into the lower-case letter whose upper case it is, and leaves every other character alone |
| Text.StripLine | extract-ao3-file.py:44-47 | a URL appended to the log as `pdf_url + "\n"` at lines 263-264 reads back, stripped, as that URL |
| Text.JoinCons | extract-ao3-file.py:166 | `" ".join` of two or more strings is the first, the separator, then the join of the rest |
| Text.ReplaceAbsent | extract-ao3-file.py:88 | `str.replace` of a pattern that does not occur leaves the text as it is |
| Text.ReplaceOneChar | extract-ao3-file.py:172 | replacing one character by another changes exactly the positions that held it |
| Text.ConcatKeepsCharacter | extract-ao3-file.py:204 | every character of a page is somewhere in the joined text |
| Text.NatToStringValue | extract-ao3-file.py:316 | the decimal digits of the count read back as the count |
| Dict.Get | extract-ao3-file.py:164 | a value found for a key is paired with that key in the dict |
| Dict.GetPresent | extract-ao3-file.py:164 | a key has a value exactly when it is one of the dict's keys |
| Dict.Put | extract-ao3-file.py:110 | after `d[k] = v`, `d[k]` is `v` |
| Dict.PutOther | extract-ao3-file.py:158 | `d[k] = v` leaves the value of every other key as it was |
| Dict.PutKeys | extract-ao3-file.py:158 | an existing key keeps its place in the order; a new key goes last |
| Dict.PutNoDup | extract-ao3-file.py:158 | assigning keeps every key present once |
| Dict.PutAllLookup | extract-ao3-file.py:107-110 | after the assignments in a loop, a key holds the value of its last assignment, or its old value when it was never assigned |
| Dict.PutAllKeys | extract-ao3-file.py:107-110 | after the assignments, the keys are the old keys and the assigned ones, each once |
| Dict.PutAllNoDup | extract-ao3-file.py:107-110 | the assignments keep every key present once |
| Dict.PutAllHasKey | extract-ao3-file.py:107-110 | a key is present after the assignments exactly when it was before or some pair assigns it |
| Dict.NewKeysSnoc | extract-ao3-file.py:107-110 | one more assignment at the end adds its key last, unless the key is already known |
| Dict.PutAllOrder | extract-ao3-file.py:107-110 | after the assignments the keys are the old keys in their old order, then the new keys in the order of their first assignment |
| Records.UrlsOf | extract-ao3-file.py:35-36 | `existing_work_urls` holds exactly the `url` of every loaded record |
| WorkLinks.DigitRun | extract-ao3-file.py:20 | `\d+` is greedy: it takes a run of digits, and the character after the run is not a digit |
| WorkLinks.IdAt | extract-ao3-file.py:20 | the captured group is a non-empty run of digits right after the literal prefix |
| WorkLinks.ScanFrom | extract-ao3-file.py:205 | every identifier findall returns is a non-empty string of digits |
| WorkLinks.NoMatchInside | extract-ao3-file.py:20 | no match can start inside an earlier one, so findall's skipping loses nothing |
| WorkLinks.SkipNoMatch | extract-ao3-file.py:205 | positions where the pattern does not match contribute no identifier |
| WorkLinks.ScanFindsAllMatches | extract-ao3-file.py:205 | findall's left-to-right scan returns the group of every match position, in text order, duplicates included |
| WorkLinks.FindWorkIdsSpec | extract-ao3-file.py:205 | findall on the text equals the reference list of the groups of all match positions |
| WorkLinks.CanonicalLetters | extract-ao3-file.py:209 | the canonical URL has 's' after "http" and 'i' after its second 'h' |
| WorkLinks.CanonicalUrlNotMatched | extract-ao3-file.py:209 | a canonical https work URL contains no reference the pattern, which wants `http://`, would find |
| WorkLinks.MatchBehindEveryId | extract-ao3-file.py:205 | a non-empty reference list implies a position where the pattern matches |
| WorkLinks.FoundIdsNotBlank | extract-ao3-file.py:205 | a text with a reference is not made of whitespace only |
| FilenameTitle.BeforeFirst | extract-ao3-file.py:171 | the part before the first occurrence of a character is a prefix without that character, ending where the character stands |
| FilenameTitle.SchemeEnd | extract-ao3-file.py:171 | the scheme separator found is the first occurrence of "://" from the given position; -1 means there is none |
| FilenameTitle.UrlPath | extract-ao3-file.py:171 | the path of the URL is never longer than the URL |
| FilenameTitle.Basename | extract-ao3-file.py:171 | `os.path.basename` is the suffix after the last '/', and has no '/' |
| FilenameTitle.BasenameOfLastSegment | extract-ao3-file.py:171 | the basename of `dir + "/" + b` is `b` when `b` has no '/' |
| FilenameTitle.HexValue | extract-ao3-file.py:172 | a hexadecimal digit stands for a value below 16, and for one below 10 exactly when it is a decimal digit |
| FilenameTitle.HexDigitChar | extract-ao3-file.py:172 | the digit written for a value below 16 reads back as that value |
| FilenameTitle.HexValueInverse | extract-ao3-file.py:172 | a digit `a`-`f` stands for the same value as its upper-case form: writing back the value of any hexadecimal digit gives that digit in upper case |
| FilenameTitle.DecodeEncode | extract-ao3-file.py:172 | `unquote` undoes percent-encoding, for every string |
| FilenameTitle.DecodeWithoutPercent | extract-ao3-file.py:172 | `unquote` leaves a text without '%' as it is |
| FilenameTitle.FallbackTitle | extract-ao3-file.py:170-172 | the fallback title is stripped |
| FilenameTitle.ReplaceAllAvoids | extract-ao3-file.py:172 | `replace` introduces no character that neither the text nor the replacement has |
| FilenameTitle.RemovePdfSuffix | extract-ao3-file.py:172 | removing every ".pdf" from `x + ".pdf"` gives what it gives for `x` |
| FilenameTitle.FallbackTitleOfPdfName | extract-ao3-file.py:170-172 | for a document `dir/stem.pdf` whose stem has no '/' and no '%', the title is the stem with every ".pdf" removed and underscores turned into spaces, stripped |
| SummaryRegex.LiteralAtLower | extract-ao3-file.py:176-178 | `IGNORECASE` matching of a lower-case literal compares the lowered slice of the text with it |
| SummaryRegex.SpaceRun | extract-ao3-file.py:177 | the greedy `\s*` stays inside the text |
| SummaryRegex.SpaceRunIsMaximal | extract-ao3-file.py:177 | `\s*` takes whitespace only, and all of it |
| SummaryRegex.FirstMatch | extract-ao3-file.py:180 | `search` returns a position where the regex can match |
| SummaryRegex.FirstMatchIsFirst | extract-ao3-file.py:180 | no earlier position can match, and when `search` finds nothing no position can |
| SummaryRegex.GroupStart | extract-ao3-file.py:177 | the group starts after "Summary" and inside the text |
| SummaryRegex.GroupStartSkipsSpaces | extract-ao3-file.py:177 | `\s*` before the group takes whitespace only: the group starts right after the whole whitespace run, or, when that run reaches the end of the text, gives back its last character so that `.+?` can take one |
| SummaryRegex.GroupEnd | extract-ao3-file.py:177 | the lazy group ends inside the text, not before its start |
| SummaryRegex.GroupEndStops | extract-ao3-file.py:177 | the group ends at a position where the lookahead holds |
| SummaryRegex.SummarySpan | extract-ao3-file.py:177-180 | the captured group is non-empty and inside the text |
| SummaryRegex.DropSpaces | extract-ao3-file.py:184 | dropping a leading whitespace run keeps a suffix that does not start with whitespace |
| SummaryRegex.DropSpacesFacts | extract-ao3-file.py:184 | what is dropped is whitespace only, so the non-whitespace characters are all kept |
| SummaryRegex.CollapseShape | extract-ao3-file.py:184 | `re.sub(r'\s+', ' ', s)` leaves whitespace only as single spaces and keeps the non-whitespace characters in order |
| SummaryRegex.CollapseEnds | extract-ao3-file.py:184 | the result is empty only for an empty text, and starts (ends) with a space exactly when the text starts (ends) with whitespace |
| SummaryRegex.CollapseLast | extract-ao3-file.py:184 | the last character of the result is a space exactly when that of the text is whitespace |
| SummaryRegex.ConsFacts | extract-ao3-file.py:184 | one character in front of a text adds itself to its non-whitespace characters when it is not whitespace, and keeps it single-spaced when it does not start a second space |
| SummaryRegex.WordLen | extract-ao3-file.py:184 | a word at the front of a text ends at whitespace or at the end of the text |
| SummaryRegex.WordLenIsRun | extract-ao3-file.py:184 | a word holds no whitespace |
| SummaryRegex.WordsAreRuns | extract-ao3-file.py:184 | `split()` gives non-empty words without whitespace |
| SummaryRegex.WordsSkipSpaces | extract-ao3-file.py:182-184 | leading whitespace holds no word |
| SummaryRegex.WordLenAppend | extract-ao3-file.py:182-184 | whitespace appended after a word does not lengthen it |
| SummaryRegex.WordsDropTrailing | extract-ao3-file.py:182-184 | trailing whitespace holds no word |
| SummaryRegex.WordsOfStrip | extract-ao3-file.py:182 | `strip()` keeps every word |
| SummaryRegex.CollapsePrefix | extract-ao3-file.py:184 | the substitution copies characters that are not whitespace |
| SummaryRegex.SpaceBeforeWord | extract-ao3-file.py:184 | a whitespace run between two words becomes exactly one space and holds no word |
| SummaryRegex.CollapseWords | extract-ao3-file.py:184 | on a stripped text, collapsing whitespace runs gives the words of the text joined by single spaces (`" ".join(s.split())`) |
| SummaryRegex.ExtractSummary | extract-ao3-file.py:174-186 | the summary is `None` exactly when `search` fails; otherwise it is the words of the captured group joined by single spaces, so it is single-spaced with no whitespace at either end |
| SummaryRegex.ExtractSummaryNone | extract-ao3-file.py:180-186 | the summary is `None` exactly when no "Summary" occurs with a character after it |
| SummaryRegex.SummaryStopsAtKeyword | extract-ao3-file.py:177 | the captured group, whose words make up the summary, ends at or before every Notes, Rating or Archive Warning keyword after its start |
| SummaryRegex.SpanEndsAtFirstStop | extract-ao3-file.py:177 | the group ends at or before every position after its start where the lookahead holds |
| SummaryRegex.GroupEndIsFirstStop | extract-ao3-file.py:177 | the lazy `.+?` stops at the first position where the lookahead holds |
| SummaryRegex.SummaryStartsAfterFirstMarker | extract-ao3-file.py:180 | the summary is taken from the first "Summary" that has text after it |
| PdfScan.Segments | extract-ao3-file.py:122 | there is always at least one piece |
| PdfScan.SegmentsSplit | extract-ao3-file.py:122 | no piece holds a line boundary, and the pieces joined with line feeds give back the text with every boundary written as a line feed |
| PdfScan.SegmentsHaveNoBreak | extract-ao3-file.py:122 | no piece holds a line boundary |
| PdfScan.SegmentsJoin | extract-ao3-file.py:122 | the pieces joined with line feeds give back the text, every boundary written as a line feed |
| PdfScan.JoinPrepend | extract-ao3-file.py:122 | a character in front of the first piece is in front of the join |
| PdfScan.LinesEmptyIff | extract-ao3-file.py:122 | the text has lines exactly when it has a character other than whitespace |
| PdfScan.LinesNotEmpty | extract-ao3-file.py:122 | no line the parser reads is empty, because blank lines are filtered out first |
| PdfScan.LabelKeysAreTrimmedLabels | extract-ao3-file.py:156 | each key is its label with the colon stripped |
| PdfScan.LabelFrom | extract-ao3-file.py:154-159 | the `for key in metadata_keys` loop finds the first label the line starts with, or none |
| PdfScan.LabelsDifferEarly | extract-ao3-file.py:127-130 | the labels differ in their first two characters |
| PdfScan.LabelIsUnique | extract-ao3-file.py:154-159 | a line starts with at most one label |
| PdfScan.LabelLineSetsValue | extract-ao3-file.py:154-159 | a label line outside the summary sets that key to the stripped rest of the line, opens that key, and leaves the other keys alone |
| PdfScan.StrayLineIgnored | extract-ao3-file.py:160-164 | a line without a label, read before any label, changes nothing |
| PdfScan.EntersSummary | extract-ao3-file.py:139-141 | a "summary" line, in any case, enters the summary and changes nothing else, in any state |
| PdfScan.EnderStopsSummary | extract-ao3-file.py:147-150 | inside the summary, an empty line or one starting with a label, "Summary" or "Notes" ends the loop and leaves the collected lines and the metadata alone; since the parser's lines are never empty (`LinesNotEmpty`), on them only such a starting word does this |
| PdfScan.PlainLineCollected | extract-ao3-file.py:147-151 | inside the summary, any other line is appended to the collected lines and nothing else changes |
| PdfScan.ContinuationAppends | extract-ao3-file.py:160-164 | outside the summary, a line without a label sets the open key to its old value, a space and the line; the other keys, the open key and the mode stay as they are |
| PdfScan.SummaryFreezesMetadata | extract-ao3-file.py:147-151 | once in the summary, the metadata no longer changes |
| PdfScan.ScanAppend | extract-ao3-file.py:137 | the loop over two lists of lines is the loop over the first, then over the second |
| PdfScan.NotesEndsScan | extract-ao3-file.py:142-145 | a "Notes" line ends the loop: what follows it is never read |
| PdfScan.StepWellFormed | extract-ao3-file.py:137-164 | one step keeps the metadata keys unique label names, and keeps the open key present |
| PdfScan.ScanWellFormed | extract-ao3-file.py:137-164 | the whole loop keeps that, so `metadata[current_key] += ...` never meets a missing key |
| PdfScan.SummaryLinesFromInput | extract-ao3-file.py:151 | when the input lines are non-empty and stripped, so is every collected summary line |
| PdfScan.ScanCollectsInputLines | extract-ao3-file.py:137-151 | the loop only appends to the summary lines, and everything it appends is one of its input lines |
| PdfScan.JoinTrimmed | extract-ao3-file.py:166 | joining non-empty stripped lines with spaces gives a non-empty stripped text |
| PdfScan.ScanLinesResult | extract-ao3-file.py:122-168 | the parser fails exactly when there is no line; the title is the first line; the summary is the collected lines joined by spaces, or "No summary found"; the metadata keys are label names |
| PdfScan.TitleSummaryResult | extract-ao3-file.py:118-168 | the parser fails exactly when the page texts are all whitespace; otherwise the title is the first line, and it is never empty |
| PdfScan.SummaryExample | extract-ao3-file.py:137-166 | for the lines "My Work", "Summary", "A brave fox", "Rating: Explicit": title "My Work", summary "A brave fox", no metadata |
| PdfScan.ExampleTrimmed | extract-ao3-file.py:122 | the example lines are already stripped |
| PdfScan.ExampleScan | extract-ao3-file.py:137-151 | the example's loop enters the summary, collects one line and stops at the label line, by the general step lemmas |
| PdfScan.FoxIsNoEnder | extract-ao3-file.py:149 | the example's summary line starts with no label, "Summary" or "Notes" |
| PdfScan.FindLabel | extract-ao3-file.py:154-159 | the label loop finds what `LabelFrom` specifies |
| PdfScan.JoinPages | extract-ao3-file.py:119-121 | the page loop builds the joined text |
| PdfScan.ScanBody | extract-ao3-file.py:132-164 | the line loop produces the metadata and the summary lines of the specified scan |
| PdfScan.ExtractTitleSummary | extract-ao3-file.py:118-168 | the parser as a method gives the specified result |
| Scrape.Backoff | extract-ao3-file.py:115 | every sleep is at least one second |
| Scrape.BackoffSchedule | extract-ao3-file.py:115 | the sleeps after attempts 0, 1 and 2 are 1, 2 and 4 seconds |
| Scrape.NormalizeCanonical | extract-ao3-file.py:88 | the https replacement leaves a canonical work URL as it is |
| Scrape.StatPairs | extract-ao3-file.py:107-109 | `zip` pairs the i-th dt label, stripped and lowered, with the i-th dd value, stripped, as many times as the shorter list is long |
| Scrape.StatsLookup | extract-ao3-file.py:107-110 | a label's value in the stats dict is that of its last pair |
| Scrape.StatsKeys | extract-ao3-file.py:107-110 | the stats dict holds each label once, and its keys are exactly the labels of the pairs |
| Scrape.StatsOrder | extract-ao3-file.py:107-110 | the stats dict lists its labels in the order of their first dt, the order in which the report prints them (line 307) |
| Scrape.LabelsOfPairs | extract-ao3-file.py:107-108 | the pairs' labels are the dt labels |
| Scrape.CollectStats | extract-ao3-file.py:104-110 | the stats loop builds the specified dict |
| Scrape.ReadPage | extract-ao3-file.py:96-112 | a summary div without a blockquote raises, and nothing else does; otherwise the title is the stripped heading or "No title found", the summary the stripped blockquote or "No summary found", and the stats the dict of the list, or empty |
| Scrape.Decide | extract-ao3-file.py:92-113 | a 404 answer, and only that, gives "404"; a request error or another 4xx or 5xx answer, and only those, asks for another attempt; any other answer is read as a page; it never decides that all attempts failed |
| Scrape.FetchFromSchedule | extract-ao3-file.py:90-115 | from attempt k: at most the remaining attempts, each failed attempt followed by its backoff |
| Scrape.FetchFromOutcome | extract-ao3-file.py:90-116 | the outcome is `None` exactly when all remaining attempts failed, and otherwise the decision of the first one that did not |
| Scrape.ScrapeSchedule | extract-ao3-file.py:87-116 | at most three attempts; the k-th failure is followed by 2^k seconds; a 404 or a page ends the attempts; `None` only after three failures with 1, 2 and 4 seconds of sleep |
| Scrape.NotFoundAtOnce | extract-ao3-file.py:93-94 | a 404 on the first attempt gives "404" with no sleep |
| Scrape.ScrapeStats | extract-ao3-file.py:87-116 | the retry loop gives the specified outcome and sleeps |
| Scrape.ReadPageMethod | extract-ao3-file.py:96-112 | the page reading as a method gives the specified outcome |
| Report.TitleCase | extract-ao3-file.py:308 | `str.title()` keeps the length and the non-letters; a letter after a letter becomes lower case, any other letter upper case |
| Report.TitleCaseKeepsLetters | extract-ao3-file.py:308 | title-casing changes only the case of letters |
| Report.TitleCaseIdempotent | extract-ao3-file.py:308 | title-casing twice is title-casing once |
| Report.StatsBlockShown | extract-ao3-file.py:305-309 | the stats block appears exactly when the record has a non-empty dict, with one line per key |
| Report.EntryShape | extract-ao3-file.py:296-310 | an entry opens with the work div and the title, links the document for a not-found record and the work otherwise, and closes the block |
| Report.PiecesShape | extract-ao3-file.py:296-310 | where the pieces of an entry sit in it |
| Report.RenderEntry | extract-ao3-file.py:296-310 | the `entry +=` steps build the specified entry |
| Report.CollectLines | extract-ao3-file.py:307-308 | the loop over the stats builds one line per pair, in the dict's order |
| Report.Entries | extract-ao3-file.py:294-311 | one entry per record, in the order of `all_results` |
| Report.PageShowsCount | extract-ao3-file.py:313-316 | the page title gives the number of records in decimal |
| Report.OpeningPrefix | extract-ao3-file.py:313-316 | the page starts with the title text and the count |
| Report.RenderEntries | extract-ao3-file.py:294-311 | the loop over the results builds the specified entries |
| Report.RenderPage | extract-ao3-file.py:291-332 | the page is the specified template filled with the count and the entries |
| Pipeline.LogSetMembers | extract-ao3-file.py:41-47 | the processed set read from the log holds exactly the non-empty stripped lines |
| Pipeline.StartUpState | extract-ao3-file.py:29-58 | without a reset and with a log: the loaded results, their URLs and the logged documents. Otherwise, even when only the log is missing: everything empty and the files gone |
| Pipeline.RecordFor | extract-ao3-file.py:219-252 | a record carries the claimed work URL and the document URL |
| Pipeline.NotFoundRecord | extract-ao3-file.py:221-233 | the 404 record carries both URLs and is marked not found |
| Pipeline.FailedRecord | extract-ao3-file.py:234-243 | the record after three failures carries both URLs and no stats |
| Pipeline.RecordByOutcome | extract-ao3-file.py:219-252 | for a document with a reference, only the escaping AttributeError gives no record; a page gives its title, summary and stats |
| Pipeline.NotFoundRecordTitle | extract-ao3-file.py:221-233 | the 404 record is titled with the first line of the text, never empty, so the file-name fallback is never used; its summary is the regex summary or "" and its stats the line-scan metadata |
| Pipeline.FailedRecordFields | extract-ao3-file.py:234-243 | the record after three failures has the line-scan title and summary and no stats |
| Pipeline.ProcessRefsFrame | extract-ao3-file.py:208-257 | the reference loop only adds seen URLs and appends records, and leaves the processed set and the files alone |
| Pipeline.ProcessRefsValid | extract-ao3-file.py:208-257 | the reference loop never gives one work URL two records, and each record it appends is for a URL not seen before, from this document |
| Pipeline.ProcessRefsSources | extract-ao3-file.py:205-209 | each record the reference loop appends is for the canonical URL of one of the document's references |
| Pipeline.OriginShift | extract-ao3-file.py:208 | a record's reference among the later references is one of all the references |
| Pipeline.AbortKeepsClaim | extract-ao3-file.py:211-219 | when an exception escapes, the URL being handled stays claimed with no record, so a later document never retries it |
| Pipeline.ProcessDocFacts | extract-ao3-file.py:189-267 | a document already processed, without a reset, changes nothing. Otherwise the ledger stays valid, records are only appended, for URLs not seen before, and the document becomes processed exactly when it was handled to the end |
| Pipeline.LogAppend | extract-ao3-file.py:261-264 | appending `pdf_url + "\n"` to the log adds exactly that document to what the log names |
| Pipeline.ProcessDocConsistent | extract-ao3-file.py:189-267 | `process_pdf` keeps the processed set equal to what the log names |
| Pipeline.RunDocsFacts | extract-ao3-file.py:281-284 | a whole run keeps the ledger valid and the log in step, lets the seen set only grow, and only appends records |
| Pipeline.StartUpValid | extract-ao3-file.py:29-58 | the start-up ledger is valid and in step with the log when the loaded results have distinct URLs |
| Pipeline.ScriptDedup | extract-ao3-file.py:277-288 | after a successful login, the script writes no two records for one work URL, writes its results to `results.json`, and its log names exactly the documents it processed |
| Pipeline.ResumeSkipsCompleted | extract-ao3-file.py:29-47 | a later run without a reset, after a run that got past the login, gets back the results and the processed set, and skips every completed document (lines 190-192) |
| Pipeline.FailedLoginAfterStartUp | extract-ao3-file.py:270-275 | the login runs after the start-up block, so a failed login exits with the files that block left: none after a reset or with a missing log, and otherwise the files as they were |
| Pipeline.MakeRecord | extract-ao3-file.py:219-252 | the record construction runs the parsers and gives the specified record |
| Pipeline.LoadUrls | extract-ao3-file.py:35-36 | the loop collects the specified URL set |
| Pipeline.LoadLog | extract-ao3-file.py:42-47 | the loop over the log collects the specified processed set |
| Pipeline.Ledger.constructor | extract-ao3-file.py:29-58 | the start-up block builds the specified start-up state and reads the reset answer |
| Pipeline.Ledger.ProcessDocument | extract-ao3-file.py:189-267 | `process_pdf` changes the ledger exactly as specified |
| Pipeline.Ledger.HandleRefs | extract-ao3-file.py:208-257 | the reference loop changes the ledger as specified and reports whether an exception escaped |
| Pipeline.Ledger.RunAll | extract-ao3-file.py:281-284 | the documents are processed one after the other, as specified |
| Pipeline.Ledger.Finish | extract-ao3-file.py:286-335 | the results file and the page are written as specified |
| Pipeline.Execute | extract-ao3-file.py:29-335 | the script, given the outcome of the login, leaves the files that the specification gives |

## Left out

- The login (`login_to_ao3`, lines 60-85) is left out; its outcome enters as the parameter `loggedIn`. The login runs after the start-up block (lines 270-275). A failed login therefore exits after `StartUp` has already deleted the three files on a reset or a missing log, and this is modelled (`Pipeline.FailedLoginAfterStartUp`).
- HTTP, `PdfReader`, BeautifulSoup and temporary files are not modelled. A download enters as the page texts of the document, or as a failure; a work page enters as a status code and the parts of it that the scraper reads.
- JSON encoding is not modelled: `results.json` is the sequence of records.
- The printing (including the debug output at lines 123 and 221-223), the prompts, and the real sleeps are left out. Sleeps are recorded in milliseconds.
- The thread pool (lines 281-284) and the lock are left out. The documents are processed one after the other, in input order, so every `with lock:` block runs without interleaving: the claim at lines 211-216 and the append at lines 254-255 are steps of `ProcessRefs`, and the block at lines 261-264 is the marking of the document in `ProcessDoc`. The interleavings of four workers are not modelled, so the order of `all_results` under concurrency is not captured.
- `Text.Strip`, `Text.Lower` and `Report.TitleCase` work on ASCII only; Unicode whitespace, case folding and the title-casing of non-ASCII letters are not modelled. The same holds for `\s`, `\d`, `\b` and `IGNORECASE` in the regular expressions.
- PdfScan.Segments: it splits on the ASCII boundaries of `splitlines`, and it differs from `splitlines` in three ways. It gives `[""]` for the empty text, where `splitlines` gives `[]`. It gives an empty last piece after a final boundary, which `splitlines` omits. It counts "\r\n" as two boundaries, with an empty piece between them. Every such extra piece is empty, and the blank-line filter drops it, so the parser's lines are the same; that equality with `splitlines` is not itself proved.
- `FilenameTitle.UrlPath` cuts off the fragment, the query and "scheme://host". It does not model the other corner cases of `urlparse` (parameters after ';', URLs without "//"). Its contract states only a bound on its length.
- `FilenameTitle.PercentDecode` decodes each "%XX" to the character with that code. UTF-8 decoding of multi-byte sequences by `unquote` is not modelled.
- `FilenameTitle.PercentEncode` is not part of the script. It is the inverse that `FilenameTitle.DecodeEncode` connects with `unquote`.
- The reading of the log file splits on "\n" only; the other line endings of universal-newline mode are not modelled.
- `Scrape.ReadPage`: `find("blockquote")` returning `None` inside a summary div raises AttributeError. This escapes the retry loop and ends the document, as in the script. Other exceptions from BeautifulSoup are not modelled.
- `loadData.js` is not part of this model.
- `Pipeline.StartUp` keeps the script's behaviour when the log file is missing but `results.json` exists. Even without a reset, the results are then discarded and the three files deleted.
