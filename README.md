# Consecutive-character analysis of a PDF, in Dafny

The script behind this project lets a user drop a PDF onto a page. It then
lists every place in the text where one character repeats: `aa`, `---`,
`0000`. The longest runs come first. A filter box narrows the list to the
runs of one character, or to the runs whose text contains what was typed.
A status line shows how many runs are shown out of the total.

This project models the logic of `script.js` and proves its properties:

- **Run extraction** (module `Extraction`): the `regex.exec` loop over
  `/(.)\1+/g` on each page's text. Text is a sequence of UTF-16 code units
  (`Units.Unit`), as the regex sees it without the `u` flag. `.` has no `s`
  flag, so it excludes the four ECMAScript line terminators. One match is one
  `Run(ch, text, length)` record.
- **Ranking** (module `Ranking`): `masterData.sort((a, b) => b.length - a.length)`.
  ECMA-262 requires `Array.prototype.sort` to be stable. The model is a
  stable insertion sort, and a lemma shows that every stable sort with this
  comparator gives the same result.
- **Filtering** (module `Filtering`): the trimmed filter, the `data.filter`
  predicate, and the choice between a table and the "no matches" message.
- **Status** (module `StatusLine`): `updateStatus`.
- **The page's state** (module `Session`, class `Analyzer`): `masterData`, the
  filter box's value, the result area and the status line, changed by
  `processPDF`, `renderTable`, `updateStatus` and the filter box's `oninput`.
- **A worked example** (module `SessionExamples`): a two-page document
  reading `xx` and `yyy`, ranked and then filtered by `y` and by `z`.

The PDF library is replaced by an input value, `Session.Document`. It is
either the error that opening the file throws, or one `PageFetch` per page:
the page's joined text, or the error that loading it throws.

Some of what the code does may be unexpected. The model follows the code:

- Runs are over UTF-16 code units, not code points. A repeated character
  outside the Basic Multilingual Plane is not a run.
- A run of a line terminator is never reported. Every other unit can form a run.
- When a page fails to load, the records of the earlier pages are not
  discarded. `masterData` keeps them, unsorted. Only the status changes, to
  the error. The next keystroke in the filter box renders them.
- After a successful load, `updateStatus()` runs after `renderTable`. It
  overwrites the shown count with the total, whatever the filter shows.

## Model

| member | source | states |
|---|---|---|
| `Units.TrimStart` | script.js:126 | the result is the suffix of the input left after the leading trimmable units, and it does not start with one |
| `Units.TrimEnd` | script.js:126 | the result is the prefix of the input left before the trailing trimmable units, and it does not end with one |
| `Units.Trim` | script.js:126 | `filterInput.value.trim()` is no longer than the input and neither starts nor ends with whitespace or a line terminator; `TrimIsSlice`, `TrimEmptyIff` and `TrimIdempotent` state the rest |
| `Units.TrimIsSlice` | script.js:126 | `filterInput.value.trim()` is a slice `s[a..b]`; everything outside it is whitespace or a line terminator, and its two ends are not |
| `Units.TrimEmptyIff` | script.js:126-131 | the trimmed filter is empty (so no filter applies) exactly when every unit typed is whitespace or a line terminator |
| `Units.TrimIdempotent` | script.js:126 | trimming a trimmed filter changes nothing |
| `Units.Contains` | script.js:129 | `text.includes(sub)` holds exactly when `sub` occurs in `text` at some offset |
| `Extraction.RunEnd` | script.js:102 | the greedy `\1+` stops at the first unit that differs from the run's unit, or at the end of the text |
| `Extraction.NextMatch` | script.js:102-104 | `regex.exec` from `lastIndex` returns the leftmost match at or after it, of two or more equal non-terminator units, extended as far as possible; it returns nothing exactly when no position from `lastIndex` on can start a match |
| `Extraction.Spans` | script.js:104-110 | every match the exec loop reports lies between `lastIndex` and the end of the text and is at least two units long |
| `Extraction.Exec` | script.js:102-104 | one call of `regex.exec`, with its scan loop and its greedy extension loop, returns exactly `NextMatch` |
| `Extraction.SpansAreMaximalRuns` | script.js:102-110 | every reported match is a maximal block of two or more copies of one unit that is not a line terminator: the units before and after it differ from it |
| `Extraction.SpansOrdered` | script.js:104-110 | matches are reported left to right and do not overlap |
| `Extraction.SpansCover` | script.js:104-110 | every pair of adjacent equal non-terminator units lies inside a reported match, so no run is missed |
| `Extraction.RunOf` | script.js:105-109 | the record pushed for a match: `text` is the matched units, `char` is its first unit and `length` is its length; the record of a maximal match is well formed and not made of a line terminator |
| `Extraction.Records` | script.js:104-110 | one record per reported match, in the order the matches are reported |
| `Extraction.PageRuns` | script.js:102-110 | every record a page pushes is well formed and not made of a line terminator; `PageRunsWellFormed`, `PageRunsFit` and the `Spans` lemmas state the rest |
| `Extraction.PageRunsFit` | script.js:102-110 | the lengths of a page's records add up to at most the page's length, and an empty page yields no records |
| `Extraction.PageRunsWellFormed` | script.js:105-109 | every record has `length >= 2`, `text.length == length` and every unit of `text` equal to `char`, which is not a line terminator; a page yields no records exactly when nothing in it can start a match |
| `Extraction.RepeatedUnitPage` | script.js:102 | a page of `n >= 2` copies of one unit yields that one run, unless the unit is a line terminator, in which case it yields none |
| `Ranking.Insert` | script.js:113 | inserting a record adds exactly that record |
| `Ranking.SortByLength` | script.js:113 | the sorted array is a permutation of the unsorted one |
| `Ranking.SortIsNonIncreasing` | script.js:113 | after the sort, lengths never increase from left to right |
| `Ranking.SortIsStable` | script.js:113 | after the sort, the records of each length are in their discovery order |
| `Ranking.StableSortIsUnique` | script.js:113 | any sequence with non-increasing lengths and the same records of each length in the same order equals the sorted array, so the comparator and stability fix the result |
| `Filtering.Keep` | script.js:129 | a record is kept when the filter is its char or a prefix of its text; a kept record has the filter as its char or is at least as long as the filter; `KeepIsContainment` gives the exact test |
| `Filtering.FilterRuns` | script.js:128-130 | `data.filter` keeps no more records than the data has, and only records the predicate accepts; `FilterIsSubsequence` and `FilterCounts` say which |
| `Filtering.Filtered` | script.js:126-131 | a blank trimmed filter shows the data unchanged; any other shows at most the data's records, each accepted by the trimmed filter; `FilteredMeaning` says which |
| `Filtering.FilterIsSubsequence` | script.js:128-130 | the filtered data is an order-preserving subsequence of the data |
| `Filtering.FilterCounts` | script.js:128-130 | a record appears in the filtered data exactly as often as in the data when the predicate accepts it, and not at all otherwise |
| `Filtering.FilterAppend` | script.js:128-130 | filtering a concatenation gives the kept records of the first part, then those of the second |
| `Filtering.FilterIdempotent` | script.js:128-130 | filtering the filtered data again with the same filter changes nothing |
| `Filtering.KeepIsContainment` | script.js:129 | for a non-empty filter and a well-formed record, the test "`item.char === filterText` or `item.text.includes(filterText)`" is the same as `item.text.includes(filterText)` |
| `Filtering.FilteredMeaning` | script.js:126-131 | a blank filter shows the data unchanged; any other shows exactly the records the trimmed filter accepts, with their multiplicities and in their order |
| `Filtering.FilteredIdempotent` | script.js:126-131 | re-rendering the filtered rows with the same filter gives the same rows |
| `Filtering.RenderedView` | script.js:133-144 | the result area shows the "no matches" message exactly when the filtered data is empty, and otherwise a table of exactly the filtered records |
| `StatusLine.StatusFor` | script.js:152-157 | the status is the prompt exactly when `masterData` is empty, whatever the count; otherwise it shows the total `masterData.length` and the count |
| `Session.LoadedPrefix` | script.js:97-99 | the loop stops at the first page that throws: all pages before it load, and it does not |
| `Session.DocumentRuns` | script.js:97-111 | the records of the loaded pages, page after page; a document whose every page fails yields none |
| `Session.DocumentRunsPrefix` | script.js:97-111 | records are only appended: those of the first `i` pages are a prefix of the document's records |
| `Session.DocumentRunsWellFormed` | script.js:97-111 | every record collected from a document is well formed and not made of a line terminator |
| `Session.RankedDataset` | script.js:97-113 | the ranked dataset of a document is well formed, has non-increasing lengths, is a permutation of the records in discovery order and keeps equal lengths in that order |
| `SessionExamples.TwoPagesFound` | script.js:97-111 | a document whose pages read `xx` and `yyy` yields the records `xx` then `yyy`, in page order |
| `SessionExamples.TwoPagesRanked` | script.js:113 | ranking those records puts `yyy` (length 3) before `xx` (length 2) |
| `SessionExamples.FilterByY` | script.js:126-131 | the filter `y` keeps only `yyy` |
| `SessionExamples.FilterByZ` | script.js:126-137 | the filter `z` keeps nothing, so the result area shows the "no matches" message |
| `Session.Analyzer.constructor` | script.js:20 | the page starts with an empty `masterData`, an empty filter box, a blank result area and the prompt |
| `Session.Analyzer.UpdateStatus` | script.js:152-158 | the status line becomes the status for `count`, or for `masterData.length` when no count is passed |
| `Session.Analyzer.RenderTable` | script.js:125-146 | the result area shows the filtered rows or "no matches", and the status shows the number of rows shown, 0 for no matches |
| `Session.Analyzer.OnFilterInput` | script.js:75 | a keystroke in the filter box re-renders `masterData` through the new filter and leaves `masterData` unchanged |
| `Session.Analyzer.PushPageRuns` | script.js:102-110 | the exec loop appends exactly the page's records, in order, to `masterData` |
| `Session.Analyzer.PushDocumentRuns` | script.js:97-111 | the page loop appends the records of the pages in page order, up to the first page that throws, and returns that page's error |
| `Session.Analyzer.Publish` | script.js:113-115 | on success `masterData` is sorted, rendered through the filter, and the status shows the total as the shown count |
| `Session.Analyzer.ProcessPdf` | script.js:82-119 | `masterData` starts empty. If the document cannot be opened, only the error status is set. If a page throws, the error status is set and `masterData` holds the earlier pages' records, unsorted. Otherwise `masterData` is the sorted records of all pages, the result area shows them through the filter, and the status shows the total twice. The filter box is never changed |

## Left out

- PDF.js: worker set-up, `file.arrayBuffer()`, `getDocument`, `getPage` and
  `getTextContent` are foreign asynchronous calls. Their results are the
  `Document` input. The joining of a page's text items into one string is
  taken as already done.
- `async`/`await`: each call is modelled as running to completion before the
  next one. Two overlapping `processPDF` calls are not modelled.
- DOM plumbing: the drop zone, the file input, and the `application/pdf`
  check only start `processPDF`. The file name shown on the page is not modelled.
- The HTML of the table and of the "no matches" message is not modelled.
  The result area is `Filtering.View`: `Blank`, `NoMatches`, or `Rows` of
  the records rendered.
- The status strings are not modelled. The status is `StatusLine.Status`:
  `Analysing`, `Prompt`, `Showing(total, shown)`, or `Error(message)`.
- The status text when the page loads comes from the HTML page, which is not
  part of this model. The constructor assumes the prompt.
- `Units.IsWhiteSpace` lists the Unicode space separators as of current
  Unicode versions. A script engine built on another Unicode version may
  trim a slightly different set.
