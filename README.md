# Wikipedia games crawler: a verified model of its core

This project is a Dafny model of the core of a Laravel package that crawls
English Wikipedia for video games. The package stores games, companies,
platforms, engines, genres, modes and series, and keeps the page-level
fields of each (title, URL, lead description, wikitext) in a shared table
of wikipages. The model covers six parts of the package:

- **Title normalisation.** `makeCleanTitle` in the `CleansTitles` concern
  removes citation markers, strips trailing parenthetical disambiguators in
  a loop, collapses whitespace and cuts the result to 255 characters
  (`clean_titles.dfy`, `citation_markers.dfy`, `php_strings.dfy`).
- **Infobox extraction.** `InfoboxParser::parse` and its helpers work over
  an abstract DOM: an infobox is a sequence of rows, and each row has an
  optional header text and an optional cell. A cell holds its text, its
  anchors (title attribute, href, text), its `li` texts and its images.
  The rows of every infobox are merged into one flat map, and later rows
  overwrite earlier ones (`infobox_parser.dfy`, `infobox_cells.dfy`,
  `infobox_dates.dfy`, `url_decoding.dfy`).
- **The crawl frontier.** Three traversal jobs each turn one page of
  gateway results into an ordered list of dispatched tasks: the category
  job, the template-transclusion job and the games-batch job. The
  `uniqueId` dedup key is the JSON serialisation of a job's identifying
  properties. A pending-queue class refuses a dispatch whose key is
  already held (`frontier.dfy`, `jobs.dfy`, `json_text.dfy`).
- **The MediaWiki client.** This covers the response shaping of
  `getEmbeddedIn`, `getAllPages` and `getCategoryMembers`, the
  disambiguation and redirect predicates, and the per-title
  `parseBundleCache` memo behind `getPageHtml` and `getPageWikitext`
  (`media_wiki_client.dfy`). An HTTP response is an input value: it
  either throws, fails, or is OK with a JSON body.
- **Page jobs and persistence.** `ProcessGamePageJob` and the six taxonomy
  page jobs run against an in-memory database class. Each table is a
  sequence of rows in primary-key order, so `first()` is the first
  matching row, and each relation is a set of pivot rows (`store.dfy`,
  `page_jobs.dfy`).
- **Data-repair migrations.** These are the consolidation of page fields
  into the wikipages table, the removal of games without a developer or
  publisher together with the orphaned wikipages, the removal of companies
  named after a footnote marker, and the two `clean_name` back-fills
  (`wikipage_migration.dfy`, `orphan_cleanup.dfy`, `company_cleanup.dfy`).

The code that updates state step by step is written as methods with loops.
This covers the `makeCleanTitle` loop, the accumulating loops of the
parser, the dispatch loops, the queue, the client's memo, the database
writes and the migrations' chunk loops. Each method is proved equal to a
specification function, and the lemmas state what the package promises
about those functions.

The model follows the code as written, including where the repository's
own tests expect otherwise:

- A game is keyed by its wikipage alone (src/Jobs/ProcessGamePageJob.php,
  lines 166-180), so one page gives at most one game.
  tests/Jobs/MultiInfoboxJobTest.php expects two games for a page with two
  infoboxes.
- `InfoboxParser::parse` returns one map, built from the rows of all
  infoboxes together (src/Services/InfoboxParser.php, lines 62-119). Later
  rows overwrite earlier ones.
- The game job stores a game whatever fields it has. No check for a
  developer or a publisher comes before the transaction.
  tests/Jobs/ProcessGamePageJobSkipCreationWithoutCompaniesTest.php expects
  nothing to be stored without companies.
- The game job calls `isDisambiguation` (lines 49-60) and never
  `isRedirect`.
- A child page job is dispatched when `needsDetails` finds no row of that
  name, or finds one whose wikipage URL is null or blank (lines 275-287).
- `getIdsFor` creates a missing company with its name alone
  (src/Jobs/ProcessGamePageJob.php, lines 238-250), so such a company has
  no `clean_name`. tests/Jobs/ProcessGamePageJobCompanyCleanNameTest.php
  expects one.

## Model

| member | source | states |
|---|---|---|
| CleansTitles.MakeCleanTitle | src/Support/Concerns/CleansTitles.php:12-56 | the reassignments of `$clean` and the `while` loop compute `CleanTitle(title)`; the loop terminates because each pass removes a non-empty suffix |
| CleansTitles.CleanTitleShape | src/Support/Concerns/CleansTitles.php:40-53 | a clean title is at most 255 characters long, every `\s` in it is a single space with no two in a row, it does not start with `\s`, and it ends in `\s` only when the cut to 255 characters fell right after a space |
| CleansTitles.CollapseAndCutShape | src/Support/Concerns/CleansTitles.php:40-53 | the same shape for the collapse, trim and cut steps applied to any string |
| CleansTitles.TrimCutShape | src/Support/Concerns/CleansTitles.php:42-53 | trimming and cutting a string whose whitespace is already normal keeps it normal and gives it no `\s` at either end, except where the cut ends it |
| CleansTitles.CutShape | src/Support/Concerns/CleansTitles.php:44-53 | cutting to 255 characters keeps whitespace normal and keeps the first character; the last character is kept unless the cut happened |
| CleansTitles.CollapseAndCutTidy | src/Support/Concerns/CleansTitles.php:40-53 | a string that is already normal, at most 255 characters long and trimmed passes the last steps unchanged |
| CleansTitles.TrimKeepsNormal | src/Support/Concerns/CleansTitles.php:42 | trimming keeps single-space whitespace normal |
| CleansTitles.CollapseSpacesIdentity | src/Support/Concerns/CleansTitles.php:41 | collapsing `\s+` runs leaves a string with normal whitespace as it is |
| CleansTitles.GroupStartSound | src/Support/Concerns/CleansTitles.php:35-36 | the position found for the trailing group is a match of `\s*\([^()]*\)\s*$` |
| CleansTitles.GroupStartComplete | src/Support/Concerns/CleansTitles.php:35-36 | whenever the regex matches from some position, a match is found, and it starts at or before that position (the leftmost one) |
| CleansTitles.SpaceRunStartSpec | src/Support/Concerns/CleansTitles.php:35 | the `\s*` before the group is a maximal run of `\s` characters |
| CleansTitles.OpenParenBeforeSpec | src/Support/Concerns/CleansTitles.php:35 | the '(' found has no parenthesis between it and the final ')' |
| CleansTitles.StripGroups | src/Support/Concerns/CleansTitles.php:35-38 | the loop never lengthens the string |
| CleansTitles.StripGroupsLeavesNoGroup | src/Support/Concerns/CleansTitles.php:35-38 | after the loop, the string does not end in a parenthetical group without inner parentheses |
| CleansTitles.StripGroupsTrailingGroup | src/Support/Concerns/CleansTitles.php:35-38 | "base (x)" loses the group and the `\s` before it, and the loop continues on the trimmed base; applied twice, "X (a) (b)" loses both groups |
| CleansTitles.TrailingGroupStart | src/Support/Concerns/CleansTitles.php:35-36 | the match in "base w(x)" begins right after the base |
| CleansTitles.StripGroupsNestedTail | src/Support/Concerns/CleansTitles.php:35-38 | a string ending in "))", such as "X (a (b))", is left alone |
| CleansTitles.StripGroupsNoCloser | src/Support/Concerns/CleansTitles.php:35-38 | a string with no ')' is left alone |
| CleansTitles.CleanTitleOfTidyName | src/Support/Concerns/CleansTitles.php:12-56 | a tidy name is its own clean title |
| CleansTitles.CleanTitleDropsDisambiguator | src/Support/Concerns/CleansTitles.php:35-38 | "Valve (company)" becomes "Valve": a tidy name followed by " (x)" cleans to the name alone |
| CleansTitles.StripDisambiguator | src/Support/Concerns/CleansTitles.php:20-38 | removing the markers, trimming and stripping the groups takes "name (x)" to the name |
| CleansTitles.CleanTitleVia | src/Support/Concerns/CleansTitles.php:40-53 | when the stripping stages already give a tidy name, that name is the clean title |
| CleansTitles.CleanTitleDropsTrailingBlanks | src/Support/Concerns/CleansTitles.php:32 | "Nintendo   " becomes "Nintendo" |
| CitationMarkers.MarkerLen | src/Support/Concerns/CleansTitles.php:20 | a match of `\[(?:\d+\|[a-z])\]` is either absent or at least three characters long |
| CitationMarkers.MarkerLenSound | src/Support/Concerns/CleansTitles.php:20 | what the regex matches is a marker |
| CitationMarkers.MarkerLenOfMarker | src/Support/Concerns/CleansTitles.php:20 | the regex matches a whole marker at its first character |
| CitationMarkers.DigitRunSpec | src/Support/Concerns/CleansTitles.php:20 | the greedy `\d+` takes a maximal run of digits |
| CitationMarkers.RemoveMarkersConcat | src/Support/Concerns/CleansTitles.php:20 | a match never runs into a following part that starts with '[' |
| CitationMarkers.RemoveMarkersSplice | src/Support/Concerns/CleansTitles.php:20 | a marker is removed wherever it stands |
| CitationMarkers.RemoveMarkersNoBracket | src/Support/Concerns/CleansTitles.php:20 | text without '[' is unchanged |
| PhpStrings.TrimIsSlice | src/Support/Concerns/CleansTitles.php:32 | `trim` takes a contiguous slice |
| PhpStrings.CollapseSpacesNormal | src/Support/Concerns/CleansTitles.php:41 | after `preg_replace('/\s+/u', ' ', ...)`, every `\s` is a space and no two are adjacent; the result starts with `\s` only when the input did |
| PhpStrings.CollapsesNelAndMongolianSeparator | src/Support/Concerns/CleansTitles.php:41 | NEL (U+0085) and U+180E count as `\s` under /u: "A\u0085B" and "A\u180EB" collapse to "A B" |
| PhpStrings.CollapseOneSpace | src/Support/Concerns/CleansTitles.php:41 | one `\s` character between two others becomes a single space |
| PhpStrings.NormalSpacesSlice | src/Support/Concerns/CleansTitles.php:47 | every slice of a string with normal whitespace has normal whitespace |
| InfoboxCells.CleanText | src/Services/InfoboxParser.php:275-280 | `cleanText` gives no trim character at either end |
| InfoboxCells.CleanTextWithoutBrackets | src/Services/InfoboxParser.php:275-280 | text without '[' only loses its surrounding trim characters |
| InfoboxCells.CleanTextDropsMarker | src/Services/InfoboxParser.php:277 | a `[digits]` marker anywhere in the text is removed |
| InfoboxCells.DedupSpec | src/Services/InfoboxParser.php:183 | `array_values(array_unique(...))` has no duplicates, keeps every string that was there, and keeps first occurrences in their original order: the deduplicated form of every prefix of the input is a prefix of the result |
| InfoboxCells.DedupPrefix | src/Services/InfoboxParser.php:183 | deduplicating a prefix of a list gives a prefix of the deduplicated list |
| InfoboxCells.DedupOfDistinct | src/Services/InfoboxParser.php:183 | a list without duplicates comes back unchanged, in order |
| InfoboxCells.CollectSpec | src/Services/InfoboxParser.php:194-199 | an accumulating loop holds f of exactly the elements it keeps |
| InfoboxCells.CollectNothingKept | src/Services/InfoboxParser.php:194-199 | when nothing is kept, nothing is collected |
| InfoboxCells.CollectLinkTexts | src/Services/InfoboxParser.php:194-199 | the `each` loop over the anchors collects the non-empty cleaned link texts |
| InfoboxCells.ExtractLinks | src/Services/InfoboxParser.php:191-202 | `extractLinks` computes `Links(cell)` |
| InfoboxCells.LinksSpec | src/Services/InfoboxParser.php:191-202 | the link list has no duplicates and no empty strings, it holds exactly the non-empty cleaned anchor texts, and it keeps them in the order of their first occurrence |
| InfoboxCells.SegmentEnd | src/Services/InfoboxParser.php:257 | `[^#?]+` runs to the first '#' or '?' or to the end |
| InfoboxCells.WikiSegmentFrom | src/Services/InfoboxParser.php:257 | a captured segment is non-empty and holds no '#' or '?' |
| InfoboxCells.UnderscoresToSpaces | src/Services/InfoboxParser.php:258 | `str_replace('_', ' ', ...)` replaces exactly the underscores, character by character |
| InfoboxCells.ChooseCandidate | src/Services/InfoboxParser.php:250-263 | the branches of the loop body compute the anchor's candidate |
| InfoboxCells.ExtractAnchorTargets | src/Services/InfoboxParser.php:246-270 | `extractAnchorTargets` computes `AnchorTargets(cell)` |
| InfoboxCells.AnchorTargetsSpec | src/Services/InfoboxParser.php:246-270 | the targets have no duplicates, each target is the trimmed candidate of some anchor, every anchor with a non-empty candidate contributes its trimmed candidate, and the targets keep the order of their first occurrence |
| InfoboxCells.TitleAttributeWins | src/Services/InfoboxParser.php:253-254 | a non-empty title attribute is the candidate |
| InfoboxCells.WikiHrefGivesSegment | src/Services/InfoboxParser.php:255-259 | without a title, the href "/wiki/" + s gives s with underscores turned to spaces and then URL-decoded |
| InfoboxCells.WikiSegmentOfWikiPath | src/Services/InfoboxParser.php:257 | the captured segment of "/wiki/" + s is s |
| InfoboxCells.TextIsLastResort | src/Services/InfoboxParser.php:261-263 | without a title and a wiki path, the candidate is the cleaned anchor text |
| InfoboxCells.DropTrailingSpaces | src/Services/InfoboxParser.php:174 | the result is a prefix of the input and does not end in `\s` |
| InfoboxCells.FirstComma | src/Services/InfoboxParser.php:174 | the first ',' is found, with no comma before it, or the text has none |
| InfoboxCells.PregSplit | src/Services/InfoboxParser.php:174 | `preg_split` always yields at least one piece |
| InfoboxCells.PregSplitNoComma | src/Services/InfoboxParser.php:174 | text without a comma is one piece |
| InfoboxCells.PregSplitPiecesCommaFree | src/Services/InfoboxParser.php:174 | no piece contains a comma |
| InfoboxCells.CollectCleaned | src/Services/InfoboxParser.php:154-159 | the `li` loop collects the non-empty cleaned item texts |
| InfoboxCells.CollectTrimmed | src/Services/InfoboxParser.php:174-179 | the comma loop collects the non-empty trimmed pieces |
| InfoboxCells.ExtractList | src/Services/InfoboxParser.php:151-184 | `extractList` computes `ListOf(cell)` |
| InfoboxCells.ListSpec | src/Services/InfoboxParser.php:151-184 | the list has no empty strings and no duplicates, it holds exactly the items of the first source (li texts, link texts, comma pieces) that yields any, and it keeps them in the order of their first occurrence |
| InfoboxCells.ListFallsBackToCommas | src/Services/InfoboxParser.php:170-180 | the comma split is used only when no `li` and no anchor has text |
| InfoboxCells.LettersBefore | src/Services/InfoboxParser.php:328 | the `[a-z]{2,}` scan counts a maximal run of ASCII letters |
| InfoboxCells.PathAfterDomainFromSpec | src/Services/InfoboxParser.php:328 | the backwards scan finds the '/' of a `(/\S*)?$` path after a domain exactly when one exists; the pattern has no `u` modifier, so `\S` excludes only ASCII whitespace |
| InfoboxCells.LooksLikeDomainSpec | src/Services/InfoboxParser.php:328 | the text looks like a domain exactly when it ends in a domain, or in a domain followed by a path without ASCII whitespace |
| InfoboxCells.NonBreakingSpaceInPath | src/Services/InfoboxParser.php:328 | "example.com/a\u00A0b" looks like a domain: a non-breaking space is not `\s` to a pattern without the `u` modifier |
| InfoboxCells.HrefWebsiteIsAbsolute | src/Services/InfoboxParser.php:309-322 | a website taken from the href has an http(s) scheme |
| InfoboxCells.WebsiteIsAbsolute | src/Services/InfoboxParser.php:304-337 | whatever `extractWebsite` returns has an http(s) scheme |
| InfoboxCells.ProtocolRelativeHref | src/Services/InfoboxParser.php:312-314 | a "//" href (section 4.2 of RFC 3986) gets "https:" in front |
| InfoboxCells.WebsitePrefersHref | src/Services/InfoboxParser.php:307-324 | when the first anchor's href decides, the cell text plays no part |
| InfoboxCells.WebsiteIgnoresInternalLink | src/Services/InfoboxParser.php:319-322 | a site-internal href such as "/wiki/..." gives no website, whatever the cell text says |
| InfoboxCells.FoundedIsYear | src/Services/InfoboxParser.php:285-299 | a founding year is a number below 10000 and is null exactly when the text has no four-digit run |
| InfoboxDates.SpacesFrom | src/Services/InfoboxParser.php:218 | `\s+` takes a maximal run of `\s` characters |
| InfoboxDates.DigitsFrom | src/Services/InfoboxParser.php:218 | `\d` runs are maximal |
| InfoboxDates.MonthAt | src/Services/InfoboxParser.php:215 | a month name is taken only where `\s` follows it |
| InfoboxDates.SpacedYear | src/Services/InfoboxParser.php:218 | `\s+\d{4}` ends after four digits |
| InfoboxDates.MonthDayYearAt | src/Services/InfoboxParser.php:218 | a "Month D, YYYY" match ends in four digits |
| InfoboxDates.DayMonthYearAt | src/Services/InfoboxParser.php:223 | a "D Month YYYY" match ends in four digits |
| InfoboxDates.MonthYearAt | src/Services/InfoboxParser.php:228 | a "Month YYYY" match ends in four digits |
| InfoboxDates.BareYearAt | src/Services/InfoboxParser.php:233 | a bare year is four digits that start with 19 or 20 |
| InfoboxDates.FirstFromIsLeftmost | src/Services/InfoboxParser.php:218-235 | the scan finds the leftmost start at which a pattern matches, and None means no start matches |
| InfoboxDates.FirstMatchIsLeftmost | src/Services/InfoboxParser.php:218-235 | the match found is `preg_match`'s leftmost match: nothing matches before it, and None means no match at all |
| InfoboxDates.MatchTextSpec | src/Services/InfoboxParser.php:218-235 | the matched text is absent exactly when the pattern matches nowhere, and otherwise it is the leftmost match |
| InfoboxDates.ExtractDate | src/Services/InfoboxParser.php:208-238 | a date found ends in four digits |
| InfoboxDates.ChosenPattern | src/Services/InfoboxParser.php:218-237 | the answer comes from the first pattern in the order tried that matches; every earlier pattern matches nothing |
| InfoboxDates.DateInSpec | src/Services/InfoboxParser.php:208-238 | `extractDate` returns the leftmost match of the first pattern that matches anywhere, and it returns null exactly when no pattern matches |
| InfoboxDates.ExtractDateIsNormalised | src/Services/InfoboxParser.php:210-212 | the date returned comes from the whitespace-normalised text, so its whitespace is single spaces |
| InfoboxDates.FourDigitsFromIsLeftmost | src/Services/InfoboxParser.php:288 | the year is taken from the leftmost four-digit window, and there is none exactly when no window exists |
| InfoboxDates.ExtractYear | src/Services/InfoboxParser.php:285-299 | `extractYear` gives a non-negative number below 10000; the range check returns the same value on both branches |
| InfoboxParser.Parse | src/Services/InfoboxParser.php:62-119 | the row loop and the image fallback compute `ParseSpec(infoboxes)`; with no infobox the result is the empty map |
| InfoboxParser.ParseRow | src/Services/InfoboxParser.php:73-103 | one turn of the row loop applies the row |
| InfoboxParser.ApplyRowFrame | src/Services/InfoboxParser.php:73-103 | a row leaves every key it does not write as it was |
| InfoboxParser.ApplyRowsFrame | src/Services/InfoboxParser.php:73-104 | rows that do not write a key leave it as it was |
| InfoboxParser.UnqualifiedRowsIgnored | src/Services/InfoboxParser.php:77-79 | rows without both a header and a cell, or whose trimmed header is not a key of the field map, change nothing |
| InfoboxParser.ApplyRowsAppend | src/Services/InfoboxParser.php:73-104 | the rows of all infoboxes are applied as one sequence |
| InfoboxParser.ApplyRowsKeys | src/Services/InfoboxParser.php:15-55 | every key of the result was there before, or is one that a row can write |
| InfoboxParser.LaterRowWins | src/Services/InfoboxParser.php:73-104 | the value under a row's key is the one that row computes (its link texts, else anchor targets, else list, for list fields; its cell data otherwise), whatever came before, as long as no later row writes that key |
| InfoboxParser.ListRowEffect | src/Services/InfoboxParser.php:81-89 | for a list key, the `_link_titles` entry holds the anchor targets when there are any and is left alone otherwise; the key holds the link texts, else the targets, else the `extractList` fallback |
| InfoboxParser.NoRowWritesCover | src/Services/InfoboxParser.php:15-55 | no label maps to the cover key, so no row writes it |
| InfoboxParser.CoverFromFirstImage | src/Services/InfoboxParser.php:106-116 | the cover comes only from the first image of the infoboxes, and it is set exactly when there is one |
| InfoboxParser.CoverProtocolRelative | src/Services/InfoboxParser.php:111-113 | a "//" image src gets "https:" in front |
| UrlDecoding.UrlDecodeInvertsPercentEncode | src/Services/InfoboxParser.php:258 | for every string, `urldecode` undoes percent-encoding of its UTF-8 octets (section 2.1 of RFC 3986), read back as UTF-8 |
| UrlDecoding.OctetsOfEscape | src/Services/InfoboxParser.php:258 | each "%XX" escape gives back its octet, whatever follows |
| UrlDecoding.DecodeUtf8OfEncode | src/Services/InfoboxParser.php:258 | reading UTF-8 (section 3 of RFC 3629) undoes writing it |
| UrlDecoding.DecodesEscapedChar | src/Services/InfoboxParser.php:258 | the escapes of one character's UTF-8 octets, between plain text, decode to that one character |
| UrlDecoding.DecodesMultiOctetEscape | src/Services/InfoboxParser.php:258 | "Pok%C3%A9mon" decodes to "Pokémon" |
| UrlDecoding.UrlDecodePlain | src/Services/InfoboxParser.php:258 | text without '%' and '+' is left as it is, non-ASCII characters included |
| Jobs.NewGamesBatch | src/Jobs/FetchGamesBatchJob.php:22-27 | the limit becomes at least 1 and is kept when already positive; an empty or "0" token becomes null; `continueToken` mirrors `apcontinue` |
| Jobs.ComputeBaseUniqueId | src/Jobs/AbstractWikipediaJob.php:35-46 | the loop over the property names builds the payload and serialises it, giving `BaseUniqueId(t)` |
| Jobs.PayloadPrefixIsPayload | src/Jobs/AbstractWikipediaJob.php:37-43 | the payload the loop builds from the front is the declared properties in the fixed order |
| Jobs.PayloadCases | src/Jobs/AbstractWikipediaJob.php:37-45 | the serialised properties of each job class, in the order pageTitle, templateTitle, categoryTitle, continueToken, with nulls included |
| Jobs.PayloadKeysOfKind | src/Jobs/AbstractWikipediaJob.php:38-39 | the keys serialised depend only on the class |
| Jobs.BaseIdInjective | src/Jobs/AbstractWikipediaJob.php:35-46 | two jobs of one class have equal base ids exactly when their serialised values are equal |
| Jobs.OverrideInjective | src/Jobs/ProcessPlatformPageJob.php:33-36 | for a class that overrides `uniqueId` with class name + ":" + title, two ids are equal exactly when the titles are |
| Jobs.SameKindIdIff | src/Jobs/AbstractWikipediaJob.php:35-46 | for jobs of one class, equal ids means equal identifying fields, and the converse holds |
| Jobs.DedupKeyIff | src/Jobs/AbstractWikipediaJob.php:15 | two jobs share a lock key exactly when they are of the same class and agree on every identifying field |
| Jobs.ContinuationDistinguishes | src/Jobs/AbstractWikipediaJob.php:35-46 | the same category or template with another continuation token is a different job |
| Jobs.GamesBatchIdentity | src/Jobs/FetchGamesBatchJob.php:19-27 | a games batch is identified by its continuation token alone; the limit is not part of its id, which is `{"continueToken":...}` |
| Jobs.GamesBatchPayload | src/Jobs/FetchGamesBatchJob.php:19-27 | the identity of a games batch is its token, and its id serialises only that token |
| Jobs.OverrideIdentity | src/Jobs/ProcessSeriesPageJob.php:30-33 | a class with an override is identified by its page title |
| Jobs.OfferKeepsDistinct | src/Jobs/AbstractWikipediaJob.php:15 | offering a job keeps the keys held distinct, and the job's key is held afterwards |
| Jobs.OfferAllKeepsDistinct | src/Jobs/AbstractWikipediaJob.php:15 | dispatching any jobs never leaves two jobs with one key in the queue |
| Jobs.DuplicateDispatchDropped | src/Jobs/AbstractWikipediaJob.php:15 | a second dispatch of an equal job while the first is pending changes nothing |
| Jobs.PendingQueue.Dispatch | src/Jobs/AbstractWikipediaJob.php:15 | a dispatch is queued exactly when no pending job holds its key; the queue becomes `Offer(old, t)` |
| Jobs.PendingQueue.DispatchAll | src/Jobs/AbstractWikipediaJob.php:15 | the jobs are offered in order |
| Jobs.PendingQueue.Complete | src/Jobs/AbstractWikipediaJob.php:15 | the oldest job runs and its lock is released; an empty queue gives nothing |
| Jobs.ThrottleEffects | src/Jobs/AbstractWikipediaJob.php:22-30 | the callback runs exactly once and first; a sleep of delay × 1000 microseconds follows exactly when the delay is positive |
| JsonText.DecodeQuote | src/Jobs/AbstractWikipediaJob.php:45 | the decoder reads back exactly the string that a JSON literal encodes, and stops after its closing quote |
| JsonText.EncodeNullableInjective | src/Jobs/AbstractWikipediaJob.php:45 | different strings or nulls have different encodings, whatever follows them |
| JsonText.DecodeMembersRoundTrip | src/Jobs/AbstractWikipediaJob.php:45 | decoding an encoded member list gives back its values |
| JsonText.EncodeObjectInjective | src/Jobs/AbstractWikipediaJob.php:45 | objects with the same keys have equal encodings only when their values are equal |
| Frontier.StringArg | src/Jobs/ProcessCategoryJob.php:18-21 | a string passes into a `?string` constructor parameter as itself; null and arrays give nothing |
| Frontier.RunMembers | src/Jobs/ProcessCategoryJob.php:42-56 | without a throwing member, the loop dispatches exactly the tasks its members emit |
| Frontier.RunAppend | src/Jobs/ProcessCategoryJob.php:42-56 | the tasks of earlier members come before those of later ones |
| Frontier.RunStopsAtAbort | src/Jobs/FetchTemplateTransclusionsJob.php:43-65 | a member that throws stops the loop; only the tasks of the members before it were dispatched |
| Frontier.CategoryDoJob | src/Jobs/ProcessCategoryJob.php:33-63 | the category job's `doJob` computes `CategoryJob(title, resp)` |
| Frontier.CategoryFetchFailure | src/Jobs/ProcessCategoryJob.php:35-40 | a failed members request fails the job and dispatches nothing; a thrown request escapes; the job fails only on a failed request |
| Frontier.CategoryMemberTasks | src/Jobs/ProcessCategoryJob.php:42-56 | there is one task per non-empty title, and the count matches: a subcategory gives a category traversal without a token, anything else a game page |
| Frontier.CategoryContinuationLast | src/Jobs/ProcessCategoryJob.php:58-62 | a non-empty continuation value adds exactly one task, last: the same category with that token |
| Frontier.NonEmptyTokenIsTruthy | src/Jobs/ProcessCategoryJob.php:58-59 | a non-empty continuation value passed as a string is truthy |
| Frontier.TemplateDoJob | src/Jobs/FetchTemplateTransclusionsJob.php:33-72 | the template job's `doJob` computes `TemplateJob(title, resp, probe)` |
| Frontier.TemplateFetchFailure | src/Jobs/FetchTemplateTransclusionsJob.php:35-40 | a failed request fails the job and dispatches nothing; a thrown request escapes |
| Frontier.TemplateMemberTasks | src/Jobs/FetchTemplateTransclusionsJob.php:43-65 | members give only game pages; a title is dispatched exactly when it is non-empty and the disambiguation check did not answer true |
| Frontier.TemplateFailOpen | src/Jobs/FetchTemplateTransclusionsJob.php:50-59 | a page whose disambiguation check throws is still dispatched |
| Frontier.TemplateContinuationLast | src/Jobs/FetchTemplateTransclusionsJob.php:67-71 | the continuation task, when present, is last and re-reads the same template with the token |
| Frontier.BatchHandle | src/Jobs/FetchGamesBatchJob.php:29-89 | the batch job's `handle` computes `BatchJob(limit, resp)` |
| Frontier.BatchFetchFailure | src/Jobs/FetchGamesBatchJob.php:42-51 | a failed request or an API error ends the batch quietly, without failing and without tasks (a scalar error value throws when logged) |
| Frontier.BatchEmptyPagesStop | src/Jobs/FetchGamesBatchJob.php:53-62 | an empty page list dispatches nothing, not even a continuation |
| Frontier.BatchMemberTasks | src/Jobs/FetchGamesBatchJob.php:64-75 | each page with a truthy title is dispatched as a game page, and nothing else is |
| Frontier.BatchChainsNext | src/Jobs/FetchGamesBatchJob.php:82-87 | a truthy next token chains one batch, last, with the same limit and that token; its request carries the token as `apcontinue` |
| MediaWikiClient.FieldOf | src/Services/MediaWikiClient.php:61-62 | a key is found exactly when the object has it, with that key's value |
| MediaWikiClient.ArrGet | src/Services/MediaWikiClient.php:61 | `Arr::get` on a non-array gives the default; without a literal dotted key it follows the path |
| MediaWikiClient.Values | src/Services/MediaWikiClient.php:65-70 | the values of an array, one per entry, in order |
| MediaWikiClient.NatToString | src/Services/MediaWikiClient.php:67-68 | decimal digits without a leading zero |
| MediaWikiClient.StrCast | src/Services/MediaWikiClient.php:67 | `(string)` fails exactly on arrays and keeps strings |
| MediaWikiClient.IntCast | src/Services/MediaWikiClient.php:68 | `(int)` keeps integers, maps booleans to 0/1 and null to 0 |
| MediaWikiClient.CastRoundTrip | src/Services/MediaWikiClient.php:67-68 | casting an integer to a string and back gives the integer |
| MediaWikiClient.ClampLimit | src/Services/MediaWikiClient.php:203 | the limit is clamped into 1..500 and is kept when already inside |
| MediaWikiClient.WithContinuation | src/Services/MediaWikiClient.php:46-48 | the continuation parameter is added exactly for a truthy token, and no other parameter changes |
| MediaWikiClient.ContinuationParamIffTruthy | src/Services/MediaWikiClient.php:203-213 | each listing request carries its continuation parameter exactly when the token is truthy, and `aplimit` is the clamped limit |
| MediaWikiClient.PageRefs | src/Services/MediaWikiClient.php:236-241 | the mapping returns exactly when every member maps, and then maps them one by one |
| MediaWikiClient.EmbeddedIn | src/Services/MediaWikiClient.php:36-73 | an HTTP failure gives null and a throw propagates |
| MediaWikiClient.AllPages | src/Services/MediaWikiClient.php:201-244 | an HTTP failure or an `error` key gives null (or a throw, for a scalar error); a listing comes only from an OK response without an error |
| MediaWikiClient.MemberKind | src/Services/MediaWikiClient.php:283 | a given type is kept; without a type, a member without `ns` throws (the undefined-key warning becomes an exception), and otherwise it is 'subcat' exactly when its ns is 14 and 'page' otherwise |
| MediaWikiClient.CategoryMembers | src/Services/MediaWikiClient.php:250-288 | an HTTP failure gives null and a throw propagates; null comes only from an HTTP failure, and a listing only from a successful response |
| MediaWikiClient.CategoryMemberMapping | src/Services/MediaWikiClient.php:280-285 | a listed member keeps its title, with '' as the default; one without a type throws exactly when it has no `ns`, and is otherwise a subcategory exactly when its ns is 14 |
| MediaWikiClient.UntypedMemberWithoutNsThrows | src/Services/MediaWikiClient.php:280-285 | one listed member with neither `type` nor `ns` makes `getCategoryMembers` throw |
| MediaWikiClient.PageRefMapping | src/Services/MediaWikiClient.php:236-241 | a listed page maps to its cast title and ns, with '' and 0 as defaults |
| MediaWikiClient.AnyDisambiguation | src/Services/MediaWikiClient.php:104-110 | true exactly when some page carries the `disambiguation` page property |
| MediaWikiClient.IsDisambiguation | src/Services/MediaWikiClient.php:78-111 | an HTTP failure gives false, and only a thrown request throws |
| MediaWikiClient.DisambiguationIff | src/Services/MediaWikiClient.php:99-110 | on an OK response the answer is true exactly when `query.pages` is an array and some page carries the property |
| MediaWikiClient.RedirectScan | src/Services/MediaWikiClient.php:445-452 | true only when some entry's non-empty `from` equals the title case-insensitively; with castable entries, exactly then |
| MediaWikiClient.IsRedirect | src/Services/MediaWikiClient.php:424-455 | a failure gives false, a throw propagates, and true needs an OK response |
| MediaWikiClient.EmptyFromNeverMatches | src/Services/MediaWikiClient.php:447-448 | an entry without `from` never matches, even the empty title |
| MediaWikiClient.BundleOf | src/Services/MediaWikiClient.php:132-161 | an HTTP failure gives a bundle of two nulls |
| MediaWikiClient.NonEmptyString | src/Services/MediaWikiClient.php:296-299 | a value is returned exactly when it is a non-empty string |
| MediaWikiClient.RepeatFetchIsCached | src/Services/MediaWikiClient.php:117-165 | once a call for a title returned, every later call returns the same bundle and sends nothing, whatever the server would answer; failures are cached too |
| MediaWikiClient.FetchSendsOnMiss | src/Services/MediaWikiClient.php:117-165 | a request is sent exactly when the title is not cached; a throw caches nothing; cached titles keep their bundles |
| MediaWikiClient.Client.FetchParseBundle | src/Services/MediaWikiClient.php:117-165 | the memo field and the answer follow `FetchStep` |
| MediaWikiClient.Client.GetPageHtml | src/Services/MediaWikiClient.php:294-300 | the cached or fetched HTML, when it is a non-empty string |
| MediaWikiClient.Client.GetPageWikitext | src/Services/MediaWikiClient.php:412-418 | the cached or fetched wikitext, when it is a non-empty string |
| Store.Blank | src/Jobs/ProcessGamePageJob.php:243 | a row created by name carries the id and the name |
| Store.Fill | src/Jobs/ProcessCompanyPageJob.php:91-99 | `fill` never changes the id or the name |
| Store.First | src/Jobs/ProcessGamePageJob.php:149-151 | `first()` finds the first matching row, and None means that no row matches |
| Store.UpsertWikipageEffect | src/Jobs/ProcessGamePageJob.php:148-164 | the wikipage written carries the payload; a match is updated in place, and otherwise exactly one row is appended; other rows are untouched |
| Store.UpsertWikipageRerun | src/Jobs/ProcessGamePageJob.php:148-164 | saving the same title and URL again finds the row the first save wrote: the same id, and no row added |
| Store.UpsertGameKeepsOne | src/Jobs/ProcessGamePageJob.php:166-180 | games are keyed by wikipage: after the upsert exactly one game points at the wikipage |
| Store.UpsertGameOneEach | src/Jobs/ProcessGamePageJob.php:166-180 | the upsert keeps every wikipage at one game at most |
| Store.UpsertGameRerun | src/Jobs/ProcessGamePageJob.php:166-180 | saving the game of the same wikipage again updates the row the first save wrote |
| Store.FirstOrCreateEffect | src/Jobs/ProcessGamePageJob.php:243-246 | the row found or created has the name, and a row is added only when no row had it |
| Store.IdsForEffect | src/Jobs/ProcessGamePageJob.php:238-250 | every id returned belongs to a row carrying the corresponding name; existing rows are kept, and names stay unique |
| Store.IdsForUnique | src/Jobs/ProcessGamePageJob.php:238-250 | resolving names never duplicates a name |
| Store.IdsForNamed | src/Jobs/ProcessGamePageJob.php:238-250 | resolving names keeps the existing rows and gives every name a row carrying it |
| Store.ExistingNameReused | src/Jobs/ProcessGamePageJob.php:243 | a name that already has a row resolves to that row, and nothing is created |
| Store.UpsertEntityEffect | src/Jobs/ProcessCompanyPageJob.php:70-105 | the upserted row carries the payload; a match keeps its name and no row is added, otherwise one row named after the page is appended; names stay unique and other rows are untouched |
| Store.UpsertEntityRerun | src/Jobs/ProcessPlatformPageJob.php:78-112 | saving the same page again finds the row the first save wrote, when the payload wrote the key it is looked up by |
| Store.SyncReplaces | src/Jobs/ProcessGamePageJob.php:183-206 | `sync` replaces the game's links in that relation by exactly the given ids and touches nothing else |
| Store.SyncRolesReplaces | src/Jobs/ProcessGamePageJob.php:225-227 | the company sync leaves one pivot row per company id, with the role the map gives it |
| Store.NeedsDetailsCases | src/Jobs/ProcessGamePageJob.php:275-287 | an unknown title needs details; a title whose row links to a wikipage with a non-blank URL does not |
| Store.SaveEntityInEffect | src/Jobs/ProcessCompanyPageJob.php:68-105 | the row written carries the payload, at most one row is appended, and names stay unique |
| Store.SaveEntityInRerun | src/Jobs/ProcessEnginePageJob.php:75-98 | saving the same row again, keyed by what the first save wrote, finds it |
| Store.SaveWikipageInRerun | src/Jobs/ProcessGenrePageJob.php:66-80 | saving the same wikipage again finds it and adds nothing |
| Store.IdsForIn | src/Jobs/ProcessGamePageJob.php:238-250 | resolving names in one table leaves the other tables, the wikipages, the games and the links alone |
| Store.Db.SaveWikipage | src/Jobs/ProcessGamePageJob.php:148-164 | the database becomes `SaveWikipageIn` of the old one |
| Store.Db.SaveGame | src/Jobs/ProcessGamePageJob.php:166-180 | the database becomes `SaveGameIn` of the old one |
| Store.Db.SaveEntity | src/Jobs/ProcessCompanyPageJob.php:70-105 | the database becomes `SaveEntityIn` of the old one |
| Store.Db.GetIdsFor | src/Jobs/ProcessGamePageJob.php:238-250 | the `foreach` over the names computes `IdsForIn` |
| Store.Db.SyncRelation | src/Jobs/ProcessGamePageJob.php:185 | the database becomes `SyncIn` of the old one |
| Store.Db.SyncCompanies | src/Jobs/ProcessGamePageJob.php:226 | the database becomes `SyncRolesIn` of the old one |
| PageJobs.SpacesToUnderscores | src/Jobs/ProcessGamePageJob.php:146 | `str_replace(' ', '_', ...)` replaces exactly the spaces |
| PageJobs.WikiUrlRecoversTitle | src/Jobs/ProcessGamePageJob.php:146 | the URL gives back a title without underscores, so two such titles with one URL are equal |
| PageJobs.WikiUrlMergesSpaceAndUnderscore | src/Jobs/ProcessGamePageJob.php:146-151 | a space and an underscore give the same URL, so such titles share one wikipage |
| PageJobs.CoverFallbackSpec | src/Jobs/ProcessGamePageJob.php:76-82 | the fallback touches only the cover, and only an empty one, taking a non-empty main image |
| PageJobs.ReleaseYear | src/Jobs/ProcessGamePageJob.php:252-267 | `extractReleaseYear` is null for a falsy string and otherwise the first four-digit run, below 10000, whatever the current year |
| PageJobs.ReleaseDate | src/Jobs/ProcessPlatformPageJob.php:116-132 | a falsy date string gives null |
| PageJobs.FoundedOf | src/Jobs/ProcessCompanyPageJob.php:95 | `founded` is set exactly for a scalar value, and an integer passes through |
| PageJobs.FootnoteTokenShape | src/Jobs/ProcessGamePageJob.php:310-316 | `isBracketFootnoteToken` holds exactly when the trimmed value is '[', one ASCII letter or digit, ']' |
| PageJobs.CompanyNames | src/Jobs/ProcessGamePageJob.php:211 | the names kept are exactly the listed strings that are non-empty and not footnote tokens |
| PageJobs.PageTask | src/Jobs/ProcessGamePageJob.php:98-141 | a child job is a taxonomy page job for the title |
| PageJobs.ChildTasksSound | src/Jobs/ProcessGamePageJob.php:98-141 | every page job dispatched is for a wanted title |
| PageJobs.ChildTasksComplete | src/Jobs/ProcessGamePageJob.php:98-141 | every wanted title gets its page job |
| PageJobs.ChildTasksMembers | src/Jobs/ProcessGamePageJob.php:90-142 | a page job is dispatched for exactly the wanted titles |
| PageJobs.ChildTasksDistinct | src/Jobs/ProcessGamePageJob.php:90-97 | with deduplicated titles, no page job is dispatched twice |
| PageJobs.DispatchChildren | src/Jobs/ProcessGamePageJob.php:98-103 | the dispatch loop gives one page job per deduplicated title that `needsDetails` wants |
| PageJobs.DispatchGameChildren | src/Jobs/ProcessGamePageJob.php:89-142 | the six dispatch loops, in order, give `GameChildren` |
| PageJobs.SyncListIn | src/Jobs/ProcessGamePageJob.php:183-206 | a relation block leaves the wikipages and the games alone |
| PageJobs.ResolvedLinks | src/Jobs/ProcessGamePageJob.php:183-206 | after names are resolved and synced, every linked row is named from the list and every name is linked |
| PageJobs.SyncListLinks | src/Jobs/ProcessGamePageJob.php:183-206 | after a non-empty list is synced, the game's links in that relation are exactly rows named from the list, covering every name |
| PageJobs.SyncListFrame | src/Jobs/ProcessGamePageJob.php:183-206 | an empty or missing list leaves the database alone; other relations are untouched either way, and names stay unique |
| PageJobs.SyncKeepsOthers | src/Jobs/ProcessGamePageJob.php:183-206 | a sync leaves the game's other relations alone |
| PageJobs.CompanyRoles | src/Jobs/ProcessGamePageJob.php:208-224 | the role map holds every developer and publisher id; a company in both lists ends as 'publisher' |
| PageJobs.BuildCompanyRoles | src/Jobs/ProcessGamePageJob.php:208-224 | the two `foreach` loops filling `$companySync` compute `CompanyRoles` |
| PageJobs.SyncCompaniesIn | src/Jobs/ProcessGamePageJob.php:208-227 | the company block leaves the wikipages and the games alone |
| PageJobs.PersistGameStores | src/Jobs/ProcessGamePageJob.php:144-180 | the transaction leaves a wikipage carrying the title, its URL and the payload, and the game written points at it with the computed columns |
| PageJobs.PersistGameOneGameEach | src/Jobs/ProcessGamePageJob.php:166-180 | the transaction keeps every wikipage at one game at most |
| PageJobs.PersistGameRerun | src/Jobs/ProcessGamePageJob.php:144-228 | storing the same title again writes the same wikipage and game rows: the game id is the first run's, and neither table grows |
| PageJobs.SyncList | src/Jobs/ProcessGamePageJob.php:183-206 | the database becomes `SyncListIn` of the old one |
| PageJobs.SyncGameCompanies | src/Jobs/ProcessGamePageJob.php:208-227 | the database becomes `SyncCompaniesIn` of the old one |
| PageJobs.PersistGame | src/Jobs/ProcessGamePageJob.php:144-228 | the transaction computes `PersistGameIn` |
| PageJobs.FetchedGame | src/Jobs/ProcessGamePageJob.php:62-88 | after the disambiguation check the job never skips, its memo is the one the parse-bundle fetch leaves, and only storing changes the database |
| PageJobs.StoreGame | src/Jobs/ProcessGamePageJob.php:89-228 | a job that found infobox data stores the page and sends no further parse request |
| PageJobs.ProcessGamePage | src/Jobs/ProcessGamePageJob.php:46-229 | `doJob`, against the database and the client, computes `GameJob` |
| PageJobs.GameJobSkipsDisambiguation | src/Jobs/ProcessGamePageJob.php:49-60 | the job skips exactly when the disambiguation check answers true, and then it changes nothing; a check that throws lets it go on |
| PageJobs.GameJobWritesOnlyWhenStored | src/Jobs/ProcessGamePageJob.php:62-74 | missing HTML and an empty parse change nothing in the database |
| PageJobs.GameJobParseRequests | src/Jobs/ProcessGamePageJob.php:62-86 | one job sends at most one parse request, none for a title already cached; once the HTML was read, the bundle stays cached |
| PageJobs.GameJobStoresPage | src/Jobs/ProcessGamePageJob.php:144-180 | a stored page leaves a wikipage with the title and its URL, and a game pointing at it |
| PageJobs.GameJobOneGameEach | src/Jobs/ProcessGamePageJob.php:166-180 | no wikipage ends with two games after a job |
| PageJobs.GameJobRerun | src/Jobs/ProcessGamePageJob.php:46-229 | re-running a stored page's job with the memo it left reads the cached bundle, stores again, sends no request, and adds no wikipage and no game |
| PageJobs.StoreEntityPage | src/Jobs/ProcessEnginePageJob.php:75-98 | a taxonomy transaction changes only its own table and the wikipages |
| PageJobs.TaxonomyJob | src/Jobs/ProcessGenrePageJob.php:45-99 | a taxonomy job never skips, its memo is the one the fetch leaves, only storing changes the database, and only a job that reads infobox columns stops on an empty parse |
| PageJobs.TaxonomyParsed | src/Jobs/ProcessCompanyPageJob.php:49-107 | once the page is parsed, the job stops without writing exactly when the parse is empty and the job reads infobox columns |
| PageJobs.ProcessTaxonomyPage | src/Jobs/ProcessCompanyPageJob.php:39-107 | `doJob` of each taxonomy job, against the database and the client, computes `TaxonomyJob` |
| PageJobs.FinishTaxonomyPage | src/Jobs/ProcessPlatformPageJob.php:58-114 | the rest of the job once the page is parsed computes `TaxonomyParsed` |
| PageJobs.StoreEntity | src/Jobs/ProcessPlatformPageJob.php:76-112 | the transaction computes `StoreEntityPage` |
| PageJobs.PayloadKeys | src/Jobs/ProcessEnginePageJob.php:77-95 | an engine's payload writes its own title, URL and description; every other row's payload writes its wikipage |
| PageJobs.PayloadColumns | src/Jobs/ProcessCompanyPageJob.php:91-99 | the columns each job's payload writes: the company job its wikipage, clean name, cover, founding year and website; the platform job its wikipage, cover, release date and website; the engine job its page fields, cover, release date and website; the genre, mode and series jobs only their wikipage |
| PageJobs.StoreEntityPageRow | src/Jobs/ProcessPlatformPageJob.php:76-112 | the row written carries the title as its name (or keeps a matched row's name) and is linked to the wikipage carrying the title, its URL and the payload; an engine row carries these itself |
| PageJobs.StoreEntityPageShape | src/Jobs/ProcessEnginePageJob.php:75-98 | a taxonomy job adds at most one row to its table, appended, keeps names unique, and an engine job leaves the wikipages alone |
| PageJobs.StoreEntityPageRerun | src/Jobs/ProcessSeriesPageJob.php:64-97 | storing the same page again, whatever the payload, adds no wikipage and no row |
| PageJobs.EmptyParseStillStored | src/Jobs/ProcessModePageJob.php:45-88 | the genre, mode and series jobs store a page even when its parse is empty |
| PageJobs.TaxonomyParsedStores | src/Jobs/ProcessGenrePageJob.php:64-97 | a stored taxonomy page leaves the row it wrote, at most one row appended, names still unique, and for an engine the wikipages untouched |
| PageJobs.TaxonomyJobStores | src/Jobs/ProcessCompanyPageJob.php:39-107 | a stored taxonomy job wrote its row under the title, from the bundle it fetched |
| PageJobs.TaxonomyParsedRerun | src/Jobs/ProcessModePageJob.php:55-88 | storing a parsed page a second time over what the first run stored stores again and adds nothing |
| PageJobs.TaxonomyJobRerun | src/Jobs/ProcessPlatformPageJob.php:48-114 | re-running a stored taxonomy job with the memo it left reads the cached bundle, stores again, and adds no wikipage and no row |
| WikipageMigration.Lookup | database/migrations/2025_08_29_000012_create_wikipages_and_migrate.php:123-127 | the page found matches the URL or the title; with neither filter the first wikipage is read; None means no page matches |
| WikipageMigration.MigrateTable | database/migrations/2025_08_29_000012_create_wikipages_and_migrate.php:93-157 | nothing happens when the table is missing or has none of the four page columns; otherwise every row is migrated in id order |
| WikipageMigration.MigrateRowPages | database/migrations/2025_08_29_000012_create_wikipages_and_migrate.php:112-149 | a row with nothing to store changes nothing; every existing page keeps its id and its non-null columns; at most one page is appended, carrying the row's values under the next id |
| WikipageMigration.MigrateRowLinks | database/migrations/2025_08_29_000012_create_wikipages_and_migrate.php:151-154 | only `wikipage_id` can change, and only from null; a row with something to store ends up linked to a page whose null columns were filled from the row |
| WikipageMigration.MigrateRowReuse | database/migrations/2025_08_29_000012_create_wikipages_and_migrate.php:123-148 | a page is appended exactly when the lookup finds none; a page found is merged and linked |
| WikipageMigration.MigrateAllPages | database/migrations/2025_08_29_000012_create_wikipages_and_migrate.php:111-156 | over the whole pass, pages are only appended at the end, every page keeps its id and its non-null columns, and appended pages take ids from the counter |
| WikipageMigration.MigrateAllRows | database/migrations/2025_08_29_000012_create_wikipages_and_migrate.php:111-156 | over the whole pass, only `wikipage_id` changes, only where it was null, and every row with something to store ends up linked |
| WikipageMigration.MigrateAllLinksExist | database/migrations/2025_08_29_000012_create_wikipages_and_migrate.php:111-156 | every `wikipage_id` the pass filled points at a wikipage that exists at the end |
| OrphanCleanup.DoomedIds | database/migrations/2025_09_19_000019_remove_games_without_developers_or_publishers_and_orphan_wikipages.php:19-40 | the ids collected are exactly the games without a developer or without a publisher |
| OrphanCleanup.CandidateIds | database/migrations/2025_09_19_000019_remove_games_without_developers_or_publishers_and_orphan_wikipages.php:36-39 | the candidates are exactly the non-null wikipage ids of those games |
| OrphanCleanup.DropGames | database/migrations/2025_09_19_000019_remove_games_without_developers_or_publishers_and_orphan_wikipages.php:48 | `whereIn(...)->delete()` keeps exactly the games whose id is not listed |
| OrphanCleanup.DropPages | database/migrations/2025_09_19_000019_remove_games_without_developers_or_publishers_and_orphan_wikipages.php:82-88 | the delete keeps exactly the wikipages whose id is not listed |
| OrphanCleanup.RefsIn | database/migrations/2025_09_19_000019_remove_games_without_developers_or_publishers_and_orphan_wikipages.php:66-80 | `$stillReferenced` holds exactly the candidates that some row of the visited tables points at |
| OrphanCleanup.StillReferencedExactly | database/migrations/2025_09_19_000019_remove_games_without_developers_or_publishers_and_orphan_wikipages.php:55-80 | visiting the games and the six entity tables finds exactly the referenced candidates |
| OrphanCleanup.CollectDoomed | database/migrations/2025_09_19_000019_remove_games_without_developers_or_publishers_and_orphan_wikipages.php:34-41 | the chunk loop collects the doomed ids and the candidates |
| OrphanCleanup.CollectReferenced | database/migrations/2025_09_19_000019_remove_games_without_developers_or_publishers_and_orphan_wikipages.php:55-80 | the loop over the reference tables gives the candidates that something still references |
| OrphanCleanup.RemoveIncompleteGames | database/migrations/2025_09_19_000019_remove_games_without_developers_or_publishers_and_orphan_wikipages.php:9-90 | the migration computes `Cleanup` |
| OrphanCleanup.GamesKept | database/migrations/2025_09_19_000019_remove_games_without_developers_or_publishers_and_orphan_wikipages.php:19-48 | a game survives exactly when it has both a developer and a publisher; the company and taxonomy tables are untouched, and so are the pivot rows of the surviving games |
| OrphanCleanup.PagesKept | database/migrations/2025_09_19_000019_remove_games_without_developers_or_publishers_and_orphan_wikipages.php:50-88 | a wikipage is deleted exactly when it belonged to a deleted game and no remaining row references it; other wikipages are never deleted |
| OrphanCleanup.NoDanglingPages | database/migrations/2025_09_19_000019_remove_games_without_developers_or_publishers_and_orphan_wikipages.php:82-88 | no remaining row points at a wikipage the migration deleted |
| OrphanCleanup.CleanupIdempotent | database/migrations/2025_09_19_000019_remove_games_without_developers_or_publishers_and_orphan_wikipages.php:11-45 | nothing changes when no game qualifies, and a second run changes nothing |
| CompanyCleanup.AddCleanNames | database/migrations/2025_09_03_000013_add_clean_name_to_companies.php:23-37 | every row with a string name gets `makeCleanTitle(name)`, overwriting what was there; no row is added, removed or reordered; a missing table is left alone |
| CompanyCleanup.CleanRow | database/migrations/2025_09_03_000013_add_clean_name_to_companies.php:28-35 | one turn of the back-fill loop |
| CompanyCleanup.WithCleanNameEffect | database/migrations/2025_09_03_000013_add_clean_name_to_companies.php:28-35 | only `clean_name` changes, exactly on rows with a string name, to the name's clean title; a second run changes nothing more |
| CompanyCleanup.FootnoteIds | database/migrations/2025_09_03_000014_remove_bracket_footnote_companies.php:19-26 | an id is collected exactly when some row with it is a footnote row |
| CompanyCleanup.RemoveFootnoteCompanies | database/migrations/2025_09_03_000014_remove_bracket_footnote_companies.php:9-31 | the companies become `WithoutFootnotes` of the old ones, and the pivot rows of the deleted companies go with them |
| CompanyCleanup.TrimTwice | database/migrations/2025_09_03_000014_remove_bracket_footnote_companies.php:22-24 | testing the trimmed name gives the same answer as testing the name |
| CompanyCleanup.FootnoteIdsMatch | database/migrations/2025_09_03_000014_remove_bracket_footnote_companies.php:19-26 | with distinct ids, an id is collected exactly when its row is a footnote row |
| CompanyCleanup.DropIdsFilters | database/migrations/2025_09_03_000014_remove_bracket_footnote_companies.php:27-29 | deleting the collected ids leaves the rows `WithoutFootnotes` keeps |
| CompanyCleanup.WithoutFootnotesMembers | database/migrations/2025_09_03_000014_remove_bracket_footnote_companies.php:22-29 | a row survives exactly when it is not a footnote row: null, non-string and blank names are kept |
| CompanyCleanup.WithoutFootnotesIdempotent | database/migrations/2025_09_03_000014_remove_bracket_footnote_companies.php:9-31 | a second run deletes nothing |
| CompanyCleanup.BackfillMissingCleanNames | database/migrations/2025_09_05_000016_backfill_missing_clean_name_companies.php:12-35 | the back-fill as evidently intended, with the two `clean_name` conditions grouped so that each selected row is read once in id order: a no-op without the table or the column; otherwise every row becomes `FillCleanName` of itself |
| CompanyCleanup.ChunkIds | database/migrations/2025_09_05_000016_backfill_missing_clean_name_companies.php:18-23 | a chunk holds at most 500 ids |
| CompanyCleanup.ChunkRound | database/migrations/2025_09_05_000016_backfill_missing_clean_name_companies.php:18-34 | an empty chunk ends the loop and writes nothing |
| CompanyCleanup.BackfillChunkedAsWritten | database/migrations/2025_09_05_000016_backfill_missing_clean_name_companies.php:12-35 | the `chunkById` loop as written, over the ungrouped query `clean_name IS NULL OR (clean_name = '' AND id > ?)`, for at most a given number of chunks: a no-op without the table or the column, otherwise the table and the end of the loop that `RunChunks` gives |
| CompanyCleanup.ChunkOfNullPrefix | database/migrations/2025_09_05_000016_backfill_missing_clean_name_companies.php:18-23 | rows with a null `clean_name` at the front fill the chunk whatever the last id |
| CompanyCleanup.StuckChunkRepeats | database/migrations/2025_09_05_000016_backfill_missing_clean_name_companies.php:18-34 | when the first 500 rows have a null `clean_name` and a blank name, a chunk writes nothing, keeps the last id at the 500th row and asks for another chunk |
| CompanyCleanup.StuckNeverFinishes | database/migrations/2025_09_05_000016_backfill_missing_clean_name_companies.php:18-34 | on such a table the loop as written is still running after any number of chunks, and the table is unchanged |
| CompanyCleanup.NamelessCompaniesNeverFinish | database/migrations/2025_09_05_000016_backfill_missing_clean_name_companies.php:18-34 | 500 companies with null names and null clean names keep the loop as written running forever |
| CompanyCleanup.FillRow | database/migrations/2025_09_05_000016_backfill_missing_clean_name_companies.php:24-33 | one turn of the chunk loop |
| CompanyCleanup.FillCleanNameEffect | database/migrations/2025_09_05_000016_backfill_missing_clean_name_companies.php:18-33 | rows with a non-empty clean name, and rows whose trimmed name is empty, are untouched; only `clean_name` is written, from the trimmed name; a second run changes nothing; afterwards a row with a non-blank name has a clean name |

## Findings

| source | as written | input that shows it | evidently intended | confidence | as-written member | corrected member |
|---|---|---|---|---|---|---|
| database/migrations/2025_09_05_000016_backfill_missing_clean_name_companies.php:18-34 | `whereNull('clean_name')->orWhere('clean_name', '=', '')` is not grouped, so the `id > ?` that `chunkById` adds binds to the `orWhere` alone. Rows whose `clean_name` stays null because their name is blank are read again by every later chunk. | 500 companies with ids 1..500, a null name and a null `clean_name`: every chunk returns the same 500 rows, writes nothing and asks for another, so the migration never ends | each row with a null or empty `clean_name` is read once, in id order, and filled from its trimmed name when that is not blank | high for the grouping, not executed | CompanyCleanup.NamelessCompaniesNeverFinish | CompanyCleanup.BackfillMissingCleanNames |

## Left out

- HTTP transport, the REST summary endpoint and `wikiOrigin` are not modelled. Each response is an input value (`Thrown`, `Failed` or `Ok(json)`). `getPageMainImage` and `getPageLeadDescription` are answers supplied in the page environment.
- `fetchRestSummaryJson` and its `restSummaryCache` are not modelled: they are part of those REST paths.
- UrlDecode: when the decoded octets are not well-formed UTF-8, each octet that does not start a well-formed sequence becomes the character with its code. PHP keeps the raw octets, which a string of characters cannot hold.
- DigitRunSpec (CitationMarkers): `\d` is taken as the ASCII digits, but the `/iu` pattern at src/Support/Concerns/CleansTitles.php:20 matches every Unicode decimal digit, so PHP removes "[٣]" and the model keeps it. `[a-z]` under `/iu` also matches U+017F and U+212A, which the model does not.
- DigitsFrom (InfoboxDates): the `\d` of the `/u` date patterns at src/Services/InfoboxParser.php:218-233 is taken as ASCII. `\w` and `\b` are ASCII too, and `/i` folds ASCII only.
- FourDigitsFromIsLeftmost (InfoboxDates): the `/(\d{4})/u` of src/Services/InfoboxParser.php:288 also matches four non-ASCII digits. For "٢٠٢٠ or 2021", PHP takes the first run, and `(int)` of it is 0; the model takes 2021.
- FoundedIsYear (InfoboxCells): for four non-ASCII digits such as "٢٠٢٠", PHP gives 0 and the model gives null, because the model's `\d` is ASCII.
- ReleaseYear (PageJobs): `/(\d{4})/u` at src/Jobs/ProcessGamePageJob.php:257 matches "٢٠٢٠" and `(int)` gives 0, but the model gives null, because its `\d` is ASCII.
- HTML parsing with Symfony DomCrawler and CSS selectors is not modelled. An infobox is given as rows, and a cell as its text, anchors, `li` texts and images.
- `Carbon::parse` is a function parameter (`parseDate`). `date('Y')` plays no part, because both branches of `extractYear` return the same value.
- In `makeCleanTitle`, `strip_tags`, the two CSS-noise regexes and `html_entity_decode` (CleansTitles.php lines 17, 24-29) are not modelled. The input is taken to be free of tags, CSS fragments and entities. `mb_substr` counts characters, which the model's sequences of characters do.
- The queue plumbing is not modelled: `onConnection`/`onQueue` routing, `$tries`/`$backoff` retries, `fail()` delivery and the `usleep` of the throttle. A failed job is an outcome value, and the throttle is the list of effects it performs.
- Concurrency between workers is not modelled. Each job and each migration runs alone, and find-then-create is not race-safe in the source either.
- Eloquent mass assignment is not modelled. `Company::$fillable` lacks `clean_name`, and `Engine::$fillable` lacks the page columns. The model writes the payloads as the jobs build them, so the `clean_name` and engine page columns that Eloquent would drop are written.
- The model keeps one id counter shared by all tables. Per-table auto-increment and database collation (case-insensitive name matching) are not modelled.
- A non-string value under a string column of the parsed data is stored as null, and JSON floats are not modelled.
- Logging is not modelled.
- Database exceptions inside a transaction are not modelled; a transaction always commits.
- The migrations' `chunkById(500)` is modelled as one ordered pass over the rows, except in the back-fill of missing clean names, whose query as written is also modelled chunk by chunk (see "## Findings").
- BackfillChunkedAsWritten: the PHP loop has no bound, so the model runs at most a given number of chunks and reports whether the loop had ended by then.
- DDL is not modelled: schema creation, added and dropped columns, indexes, and every `down()` method. The existence checks on tables and columns are boolean inputs.
- The engine job is modelled against the engines columns from before the consolidation migration: `wikipedia_url`, `title`, `description` and `wikitext`. database/migrations/2025_08_29_000012_create_wikipages_and_migrate.php, lines 55-87, drops these columns. On a migrated database, the job's `orWhere('wikipedia_url', ...)` would raise.
- PageJobs.StoreEntityPageRow: the link to the wikipage is stated for the row the job writes; the engine job's wikipage-less row is described by its own columns instead.
- WikipageMigration.Lookup: `value('id')` without an `orderBy` is taken to read the first row in id order.
- The disambiguation probe of the template job is a function from titles to responses, so two checks of one title get the same answer.
- Console commands, the service provider, configuration and the Eloquent model classes are not part of this model; the models only give the shapes of the rows.
