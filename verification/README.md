# pihole-log-explorer: the log-line interpreter and the record filter

pihole-log-explorer is a terminal viewer for the dnsmasq log that Pi-hole
writes. Each log line is turned into a record by `UnmarshalLogLine`:

- the line is split into white-space separated tokens;
- the timestamp is rebuilt from tokens 0 to 2;
- the line is classified by token 4 into one of nine kinds (blocked, read, the
  three query kinds, cached, forwarded, reply, unknown);
- the kind's fields (result, domain, requester, upstream) are read from fixed
  token positions;
- the raw line is stored with every `]` written as `[]`, the escape of the
  tview widget library.

The table lists the records newest first. A text search and the detail pane's
"drill-down" entries narrow the table with `FilterLogLine`, an order-keeping
selection driven by a predicate.

The model has four modules:

- `Results` (`results.dfy`): `Option` and a `Result` that supports `:-`.
- `Text` (`text.dfy`): the Go string primitives the core uses, defined as the
  core relies on them. These are `strings.Fields` with Go's `unicode.IsSpace`,
  `strings.ReplaceAll` for the escape and its inverse, and `strings.Contains`.
- `LogLines` (`log_line.dfy`): `LogLine.go`. The kinds are a datatype. The
  token layout of each kind is a table (`Offset`, `MinTokens`). The parser
  returns `Err` wherever the Go code panics: on an index out of range
  (reporting the same index) or on a timestamp that `time.Parse` rejects.
  `Filter` specifies `FilterLogLine`.
- `Explorer` (`explorer.dfy`): the parts of `main.go` that are not UI glue.
  These are:
  - its second copy of the parser, which compares LineType strings;
  - the row arithmetic of `setTable`;
  - the detail pane's entries and their field-equality closures;
  - the mapping from a selected table row to a record.

`time.Parse(time.Stamp, ...)` is a parameter, `parseTime: string ->
Option<Instant>`: the model does not depend on how timestamps are read.

## Model

| member | source | states |
|---|---|---|
| LogLines.Classify | LogLine.go:48-67 | token 4 alone picks the kind: any kind but Unknown is chosen exactly when token 4 is that kind's literal, and Unknown exactly when token 4 is none of the eight literals |
| LogLines.LineType | LogLine.go:10-20 | the nine LineType constants, one per kind; LineTypeNamesKind proves them pairwise distinct and KindNamed inverts them |
| LogLines.KindNamed | LogLine.go:10-20 | a string that names a kind is that kind's LineType constant |
| LogLines.LineTypeNamesKind | LogLine.go:10-20 | the nine LineType constants are pairwise distinct: each names its own kind |
| LogLines.LineTypeIsEscapedToken | LogLine.go:10-20 | each LineType constant except "gravity blocked" and "unknown" is the dispatch token with `]` escaped, and unescaping gives the token back |
| LogLines.OffsetWithinMinTokens | LogLine.go:69-96 | every token position a kind reads lies below that kind's minimum token count |
| LogLines.At | LogLine.go:39 | indexing the tokens succeeds exactly when the index is in range |
| LogLines.ParseTimestamp | LogLine.go:39-43 | the timestamp is tokens 0 to 2 joined by single spaces, and a stamp the time parser rejects is an error; UnmarshalFollowsLayout states where it fails |
| LogLines.UnmarshalLogLine | LogLine.go:32-110 | a parsed record stores the line with `]` escaped |
| LogLines.UnmarshalTokens | LogLine.go:39-110 | the parse after the split; a parsed record stores the escaped line |
| LogLines.ReadFields | LogLine.go:69-109 | the field reads of each kind; a record they make stores the escaped line |
| LogLines.FirstOutOfRangeOfKind | LogLine.go:69-96 | where the field reads panic on a line of at least five tokens: nowhere once the line has its kind's token count, else at token 5 for a query or forwarded line of at most five tokens, else at the kind's last token |
| LogLines.ReadFieldsSucceed | LogLine.go:69-96 | with enough tokens, each field is the token at its kind's position, and "" where the kind has no such field |
| LogLines.ReadFieldsPanic | LogLine.go:72-95 | with too few tokens, the parse fails at the first missing token in the order result, domain, requester, upstream |
| LogLines.UnmarshalFollowsLayout | LogLine.go:32-110 | the whole parse by cases: the first missing token of 0 to 2, then a rejected timestamp, then a missing token 4, then the first missing field token; otherwise the record follows the layout of the kind token 4 selects |
| LogLines.ParseSucceedsExactly | LogLine.go:39-95 | a line parses if and only if the timestamp is accepted and it has at least five tokens and as many as its kind needs (nine for blocked; eight for cached, reply, the queries and forwarded; five for read and unknown) |
| LogLines.ParsedIsConsistent | LogLine.go:69-96 | every parsed record's LineType is one of the nine constants, and each positional field is non-empty exactly when its kind has that field |
| LogLines.ConsistentExclusivity | LogLine.go:25-28 | in a consistent record: Result is non-empty exactly for cached, reply and blocked; Requester exactly for the queries; Upstream exactly for forwarded; Domain is empty exactly for read and unknown |
| LogLines.ParsedLineIsEscaped | LogLine.go:99 | the stored line has no `]` that does not follow a `[`, is one character longer per `]`, and unescapes to the raw line |
| LogLines.QueryLineSplits | LogLine.go:34 | the sample query line, written with single spaces, splits into its eight tokens |
| LogLines.BlockedLineSplits | LogLine.go:34 | the sample blocked line splits into its nine tokens |
| LogLines.ForwardedLineSplits | LogLine.go:34 | the sample forwarded line splits into its eight tokens |
| LogLines.OtherLineSplits | LogLine.go:34 | the sample line with an unrecognised token 4 splits into its seven tokens |
| LogLines.PaddedDaySplits | LogLine.go:34-39 | a day padded to two columns ("Jan  2") splits into the same tokens as "Jan 2", so the rebuilt stamp has a single space |
| LogLines.SampleQuery | LogLine.go:32-110 | any line that splits into the sample query tokens parses to a record with domain host.lan, requester 10.0.0.5, no result or upstream, and the escaped line |
| LogLines.SamplePadded | LogLine.go:32-110 | the sample query line with a padded day parses to the same fields as the single-spaced one |
| LogLines.SampleBlocked | LogLine.go:32-110 | a "gravity blocked" line yields the domain at token 6, the result at token 8, and the escaped line |
| LogLines.SampleForwarded | LogLine.go:32-110 | a forwarded line yields its domain, its upstream server and the escaped line |
| LogLines.SampleOther | LogLine.go:32-110 | a line with any other token 4 is "unknown" with no fields and keeps the escaped line |
| LogLines.Filter | LogLine.go:114-124 | the selection is never longer than the input |
| LogLines.FilterLogLine | LogLine.go:114-124 | the loop that appends accepted lines returns exactly `Filter(lines, f)`; the viewer's `filterLogLine` (main.go:40-50) is the same loop |
| LogLines.FilterMembers | LogLine.go:114-124 | a record is in the result if and only if it is in the input and f accepts it |
| LogLines.FilterCounts | LogLine.go:114-124 | each accepted record occurs as often as in the input, and no rejected record occurs at all |
| LogLines.FilterIsSubsequence | LogLine.go:114-124 | the result is an order-preserving selection from the input |
| LogLines.SubsequenceOfSelf | LogLine.go:114-124 | sanity check of the order predicate used for the filter: a list is a selection of itself |
| LogLines.SubsequenceAppend | LogLine.go:114-124 | sanity check of the same predicate: a selection stays a selection when the input grows at the end |
| LogLines.SubsequenceNotTrivial | LogLine.go:114-124 | sanity check of the same predicate: it respects order, so two distinct records swapped are not a selection |
| LogLines.FilterIdempotent | LogLine.go:114-124 | filtering twice with the same predicate equals filtering once |
| LogLines.FilterEmptyIff | LogLine.go:114-124 | the result is empty if and only if f accepts no record |
| LogLines.FilterKeepsAll | LogLine.go:114-124 | when f accepts every record the result is the input |
| LogLines.TextSearchLogLine | LogLine.go:126-132 | the closure of a text search: strings.Contains on the stored line; TextSearchMatches states its meaning |
| LogLines.TextSearchMatches | LogLine.go:126-132 | a search accepts a record if and only if the text occurs in its stored line; the empty text matches every record; the viewer's `textSearchLogLine` (main.go:52-58) is the same closure |
| LogLines.TextSearchMissesStrayBracket | LogLine.go:126-132 | a search text holding a `]` that does not follow a `[` (such as "query[A]") matches no parsed record |
| Text.WordLength | LogLine.go:34 | the first word of a text ends at the first white-space character |
| Text.Fields | LogLine.go:34 | strings.Fields: the maximal runs of non-space characters; FieldsAreWords, FieldsJoinSpace, FieldsSkipSpaces and FieldsAfterWord state its meaning |
| Text.FieldsAreWords | LogLine.go:34 | every token strings.Fields yields is non-empty and free of white space |
| Text.FieldsSkipSpaces | LogLine.go:34 | leading white space does not change the tokens |
| Text.FieldsAfterWord | LogLine.go:34 | a word followed by any non-empty run of white space is one token, whatever the run's length |
| Text.WordLengthOfWord | LogLine.go:34 | a word followed by white space or nothing ends where the word ends |
| Text.FieldsJoinSpace | LogLine.go:34 | splitting words joined by single spaces gives the words back |
| Text.Escape | LogLine.go:99 | `strings.ReplaceAll(line, "]", "[]")`, the tview escape (main.go:139 does the same); EscapeLength, EscapedBracketsFollowOpen and UnescapeEscape state its meaning |
| Text.EscapeLength | LogLine.go:99 | escaping adds one character per `]` |
| Text.EscapeWithoutBracket | LogLine.go:99 | a text without `]` is unchanged by the escape |
| Text.EscapedBracketsFollowOpen | LogLine.go:99 | in escaped text every `]` directly follows a `[` |
| Text.EscapeHead | LogLine.go:99 | escaped text never starts with `]` |
| Text.EscapeAppend | LogLine.go:99 | escaping distributes over concatenation |
| Text.Unescape | main.go:300 | replacing `[]` by `]` never lengthens a text |
| Text.UnescapeEscape | main.go:298-300 | undoing the escape gives back the original text |
| Text.Contains | LogLine.go:130 | strings.Contains; ContainsOccurs states its meaning |
| Text.OccursShift | LogLine.go:130 | dropping the first character of the text moves every occurrence one place left |
| Text.ContainsOccurs | LogLine.go:130 | strings.Contains holds if and only if the needle occurs at some position |
| Text.StrayBracketNeverInEscaped | LogLine.go:130 | a needle holding a `]` that does not follow a `[` occurs in no escaped text |
| Explorer.Dispatch | main.go:88-107 | the viewer's switch yields the LineType constant of the kind LogLines.Classify picks, so always one of the nine constants |
| Explorer.ReadFields | main.go:109-136 | the viewer's field reads, guarded by LineType string comparisons; ReadFieldsAgree proves them equal to the reads guarded by kinds |
| Explorer.ReadFieldsAgree | main.go:109-136 | comparing LineType strings reads the same tokens, and fails at the same index, as comparing kinds |
| Explorer.UnmarshalLogLine | main.go:72-150 | the viewer's `unmarshalLogLine` agrees with `UnmarshalLogLine` on every line, in every field and every panic |
| Explorer.Shown | main.go:63-68 | the table has one row per record |
| Explorer.ShownRow | main.go:64-66 | table row r, for r from 1 to rows, shows record rows - r |
| Explorer.ShownIsPermutation | main.go:63-68 | every record is shown exactly once |
| Explorer.ShownIsReversed | main.go:63-68 | the table order is the record order reversed |
| Explorer.SetTable | main.go:60-70 | the loop fills exactly rows 1 to rows, and row r holds the line of record rows - r |
| Explorer.DetailFacets | main.go:295-363 | the detail pane always offers the entry-type filter, and offers a field filter exactly when the selected record's field is non-empty |
| Explorer.EntryTypeLabel | main.go:299-300 | the entry-type label, the LineType with `[]` unescaped; EntryTypeLabelOfKind states it for every kind |
| Explorer.DrillDown | main.go:302-359 | the five closures the detail pane passes to filterLogLine, each comparing one value with the selected record's; DrillDownExact states what they keep |
| Explorer.EntryTypeLabelOfKind | main.go:298-300 | the filter indicator shows each kind's dispatch token ("query[A]" for the "query[A[]" constant), and the blocked and unknown constants as stored |
| Explorer.DrillDownExact | main.go:302-359 | a drill-down keeps exactly the records whose LineType, result, domain, requester or upstream equals the selected record's, in order |
| Explorer.DrillDownKeepsSelected | main.go:302-359 | a record drawn from the list matches its own drill-downs, so the drilled table is never empty |
| Explorer.RequesterMeansQuery | LogLine.go:27 | a consistent record with a requester is a query |
| Explorer.UpstreamMeansForwarded | LogLine.go:28 | a consistent record with an upstream is a forwarded line |
| Explorer.RequesterDrillDownKeepsQueries | main.go:337-349 | over consistent records, a requester drill-down keeps only query records |
| Explorer.UpstreamDrillDownKeepsForwarded | main.go:351-363 | over consistent records, an upstream drill-down keeps only forwarded records |
| Explorer.EmptySearchShowsAll | main.go:251-257 | submitting an empty search text shows every record |
| Explorer.SelectedAsWritten | main.go:282 | the handler as written picks a record of the full list |
| Explorer.SelectionAfterSearchPicksWrongRecord | main.go:282 | after a search narrows the table, selecting a row can pick a record other than the one the row shows |
| Explorer.SelectedRecord | main.go:282 | the selected record is the one shown on the selected row, drawn from the list the table was filled from |
| Explorer.DrillDownFromTable | main.go:274-365 | a row selected in a filtered table stands for a record of the full list that the filter accepts and that its own drill-downs keep |
| Explorer.SelectionAgreesUnfiltered | main.go:282 | on the unfiltered table the handler as written picks the record the row shows |

## Left out

- The terminal UI is not modelled: the tview/tcell widgets, layout, focus, key
  handlers, help modal and filter indicator texts (main.go:152-370). The only
  parts kept are the detail-pane entries, the closures they pass to
  `filterLogLine`, the entry-type label and the row arithmetic of `setTable`.
- Reading and reloading `/var/log/pihole.log` through `tail.TailFile`
  (main.go:195-208, main.go:227-240) is file I/O through a foreign library.
- `time.Parse(time.Stamp, ...)` is the parameter `parseTime`; the detail pane's
  timestamp formatting (main.go:292) is left out for the same reason.
- Reassigning the captured `logLines` and `rows` across event closures is
  event-driven UI state. Each lemma takes the list it speaks about as an
  argument.
- Strings are sequences of code points. Go's byte-level handling of invalid
  UTF-8 in `strings.Fields`, `ReplaceAll` and `Contains` is not modelled.
- `LogLine.go` and `main.go` both declare the nine constants in `package main`,
  so the two files do not build together. The model keeps them apart as two
  modules.
- `filterLogLine` returns a nil slice when nothing matches. The model does not
  tell that apart from an empty sequence.
- The filters never change their input. In the model this holds by
  construction, since sequences are values.
- Explorer.SelectedAsWritten: only the rows that hold records (1 to the row
  count) are modelled. Row 0 is never written by `setTable`: it is the empty
  row that `SetFixed(1, 1)` pins and that `table.Select(0, 0)` (main.go:265)
  selects first. Selecting it would index one past the end of the list.
- Explorer.SelectedRecord: only the rows that hold records are modelled, as
  above.

## Findings

| source | as written | input that shows it | evidently intended | confidence | as-written member | corrected member |
|---|---|---|---|---|---|---|
| main.go:282 | the row-selection handler takes `logLines[rows-row]`, where `logLines` and `rows` are the full list and its length, even when the table shows a filtered list | records with lines "x" and "y"; a text search for "x" leaves one row showing "x"; selecting row 1 picks the record "y" | take the record the selected row shows, counted in the list the table was last filled from | high, by reading the code; not executed | Explorer.SelectedAsWritten, Explorer.SelectionAfterSearchPicksWrongRecord | Explorer.SelectedRecord, Explorer.DrillDownFromTable |
