# eslint-try-rules: the aggregation pipeline and the two reports, in Dafny

eslint-try-rules runs ESLint with a set of requested rules. It folds every lint message into
one record per rule (`RuleResult`) and prints the records twice: as console lines and as an
HTML page. This project models that pipeline and proves what the code promises about it.

- `types.dfy` (module `Types`): the shared data shapes `MessageDetail`, `RuleResult` and
  `SortOption`. The `unknown` config value is a JSON-like datatype `Config`. The module also
  holds the sums of the three counters over a list of records and lemmas about those sums.
- `aggregation.dfy` (module `Aggregation`): the raw ESLint message and `LintResult`. It gives a
  loop-free reference for `processResults`: the record each rule id must end with, and the order
  of the records. It also proves the properties of that reference:
  - counts agree with details, and fixable is at most the detail count;
  - messages are conserved;
  - rule ids are distinct;
  - requested keys come first in `Object.keys` order, then new ids in first-seen order, and the
    filter keeps that order;
  - records without findings are dropped;
  - a requested rule named `unknown` absorbs the messages that have no rule id.
- `lint.dfy` (module `Lint`):
  - `createRuleFilter` and the pattern expansion;
  - the `filesToLint` loop and the chunked linting loop;
  - `processResults` as imperative code: a map of records plus its insertion order, updated
    message by message. It is proved equal to the reference;
  - `runLint`, which ties these steps together.
- `report_console.dfy` (module `ReportConsole`):
  - the three comparators, proved to be consistent orderings;
  - `printConsoleReport` as a loop that collects the lines it logs;
  - the sort order, the stats segment, the report's shape and its totals.
- `report_html.dfy` (module `ReportHtml`):
  - `escapeHtml` as three `replaceAll` passes. It is proved equal to per-character escaping, to
    have an inverse, and to leave no `<` or `>`, so the order of the passes matters;
  - `generateHtml` as a loop that builds rows and sums;
  - the row, details-row, toggle, config-cell and footer structure.
- `seqs.dfy`, `strings.dfy`, `sorting.dfy`: generic helpers for `Array.prototype.join` and
  `map`, decimal printing, the string order used for `localeCompare`, and `toSorted` (a stable
  insertion sort, proved sorted and a permutation).

External calls are function-typed parameters whose behaviour is left unconstrained:
- `path.relative` and `path.join`;
- `JSON.stringify`;
- tinyglobby's `glob`;
- ESLint's `isPathIgnored` and `lintFiles`.

Console output is the list of strings handed to `console.log`, without colour codes.

The behaviour of the `'unknown'` config follows the code. A rule that was never requested gets
the string `'unknown'` as its config (src/lint.ts:128). The HTML report therefore shows
`JSON.stringify('unknown')` for such a rule, and shows `N/A` only when the config is `undefined`
or `null` (src/report-html.ts:28).

## Model

| member | source | states |
|---|---|---|
| Types.SumsPermutation | src/report-console.ts:41-56 | Two lists that hold the same records, each as often, have equal error, warning, fixable and detail totals. Summing over the sorted copy therefore gives the input's totals. |
| Strings.NatToString | src/report-console.ts:62-68 | A count is printed as a non-empty string of decimal digits, with a leading `0` only for zero. |
| Strings.ParseNatToString | src/report-console.ts:62-68 | Reading the printed digits back gives the count: decimal printing round-trips. |
| Strings.NatToStringInjective | src/report-html.ts:44-46 | Different counts print differently. |
| Strings.IntToString | src/report-console.ts:74 | `String(n)` of a line or column starts with `-` exactly when the number is negative. The characters after the sign are decimal digits that read back as the absolute value. |
| Strings.LexCompare | src/report-console.ts:10 | `localeCompare` as a three-way comparison: the first differing character decides, and a proper prefix comes first. LexCompareMeaning states its meaning. |
| Strings.LexCompareMeaning | src/report-console.ts:10 | The three-way string comparison is negative, zero or positive exactly when the first string precedes, equals or follows the second. "Precedes" is a separate definition: a proper prefix, or a smaller character at the first difference. |
| Strings.LexCompareAntisymmetric | src/report-console.ts:10 | Swapping the two strings negates the comparison. |
| Strings.LexCompareTransitive | src/report-console.ts:10 | "Not after" is transitive. |
| Sorting.Insert | src/report-console.ts:41 | The insertion step adds exactly one copy of the element. |
| Sorting.InsertSorted | src/report-console.ts:41 | Inserting into a sorted list keeps it sorted, for any consistent comparator. |
| Sorting.SortBy | src/report-console.ts:41-46 | The sorted copy holds the same elements, each as often as the input. |
| Sorting.SortBySorted | src/report-console.ts:41-46 | The sorted copy is ordered by the comparator, is a permutation of the input and has its length. |
| Aggregation.EffectiveRuleId | src/lint.ts:122 | `msg.ruleId ?? 'unknown'`: the message's rule id, or `unknown` when it has none. |
| Aggregation.DetailOf | src/lint.ts:146-151 | The detail pushed for a message: its relative file path, line, column and text. |
| Aggregation.Occurrences | src/lint.ts:120-121 | The messages of all files in visiting order, each paired with its relative file path. |
| Aggregation.MessageCount | src/lint.ts:120-121 | The total number of messages over all files. |
| Aggregation.Errors | src/lint.ts:137-139 | The reference error count of a rule: its messages of severity 2. |
| Aggregation.Warnings | src/lint.ts:139-141 | The reference warning count of a rule: its messages of any other severity. |
| Aggregation.Fixable | src/lint.ts:142-144 | The reference fixable count of a rule: its messages that carry a fix. |
| Aggregation.Details | src/lint.ts:146-151 | The reference details of a rule: one per message of that rule, in message order. |
| Aggregation.ConfigFor | src/lint.ts:112-128 | The config of a record: the requested value for a requested rule, else the string `'unknown'`. |
| Aggregation.ExpectedRecord | src/lint.ts:109-151 | The record a rule id ends with: its config and the four reference tallies. |
| Aggregation.NewIds | src/lint.ts:123-135 | The rule ids that are not requested, each once, in the order their first message is met. NewIdsFacts and NewIdsFirstSeen state its properties. |
| Aggregation.ExpectedOrder | src/lint.ts:107-135 | The insertion order of the map: the requested keys in `Object.keys` order, then the new ids. |
| Aggregation.Counted | src/lint.ts:137-151 | The counting rule for one message: error on severity 2, warning otherwise, fixable on a fix, and one more detail. CountInto and Extend tie it to the code. |
| Aggregation.Report | src/lint.ts:106-156 | The reference result: the expected records in the expected order, filtered to those with findings. ProcessResults is proved equal to it. |
| Aggregation.FileOccurrences | src/lint.ts:121 | A file contributes one occurrence per message. |
| Aggregation.OccurrencesLength | src/lint.ts:120-121 | The flattened message list is as long as the total number of messages over all files. |
| Aggregation.Records | src/lint.ts:155 | `[...ruleMap.values()]` has one record per tracked id. |
| Aggregation.KeepFindings | src/lint.ts:155 | A record survives the filter exactly when it has an error or a warning, and the filter never lengthens the list. KeepFindingsAppend states that it keeps order and multiplicity. |
| Aggregation.KeepFindingsAppend | src/lint.ts:155 | Filtering a concatenation is the concatenation of the filtered parts, so the filter keeps the order and the multiplicity of what it keeps. |
| Aggregation.RecordsAppend | src/lint.ts:155 | The records of two id lists in turn are the records of their concatenation. |
| Aggregation.ReportOrder | src/lint.ts:107-155 | The output is the requested rules with findings in `Object.keys` order, then the newly met rules with findings in first-seen order. |
| Aggregation.RecordIds | src/lint.ts:155 | Every record listed for some ids carries one of those ids. |
| Aggregation.RequestedBeforeNew | src/lint.ts:107-135 | In the requested records followed by the new ones, a requested rule has only requested rules before it. |
| Aggregation.KeyedBeforeUnkeyed | src/lint.ts:107-135 | When every record of the first part has a requested key and none of the second part has, a requested record has only requested records before it. |
| Aggregation.ReportRequestedFirst | src/lint.ts:107-155 | No requested rule is reported after a rule that was not requested. |
| Aggregation.Extend | src/lint.ts:122-151 | One more message changes only its own rule's record, by the counting rule, and appends the rule id to the order exactly when the id is new. |
| Aggregation.NewIdsFacts | src/lint.ts:122-135 | Every message's rule id is requested or is a new id. New ids are not requested, each comes from some message, and they are distinct. |
| Aggregation.NewIdsFirstSeen | src/lint.ts:125-135 | New ids are ordered by first encounter: an earlier new id was met before any message of a later one. |
| Aggregation.AbsentIdCountsNothing | src/lint.ts:120-153 | A rule id that no message carries ends with zero counts and no details. |
| Aggregation.SeedRecord | src/lint.ts:109-118 | Before any message, a requested rule's record has its configured value, zero counts and no details. |
| Aggregation.FreshRecord | src/lint.ts:125-135 | A rule id that is neither requested nor seen so far has a record with config `'unknown'`, zero counts and no details. |
| Aggregation.CountsAgree | src/lint.ts:137-151 | For every rule, errors plus warnings equals the number of details, and fixable is at most that number. |
| Aggregation.KeepFindingsSums | src/lint.ts:155 | Dropping records without findings keeps the error and warning totals. |
| Aggregation.RecordsSumStep | src/lint.ts:137-141 | One more message raises errors plus warnings over the tracked records by one if its rule is tracked, and otherwise leaves it unchanged. |
| Aggregation.RecordsSumTotal | src/lint.ts:120-153 | When every message's rule is tracked, errors plus warnings over the records equals the number of messages. |
| Aggregation.RecordsSumEmpty | src/lint.ts:109-118 | The seeded records have no errors and no warnings. |
| Aggregation.ExpectedOrderDistinct | src/lint.ts:107-135 | The rule ids in the map's insertion order are distinct, and every message's rule id is among them. |
| Aggregation.KeepFindingsDistinct | src/lint.ts:155 | Filtering keeps rule ids distinct. |
| Aggregation.ReportRecords | src/lint.ts:109-155 | Every returned record has findings, and its counts agree with its details. It is its rule's reference record. Its config is the requested value, or `'unknown'` for an unrequested rule. |
| Aggregation.ReportConservesMessages | src/lint.ts:120-155 | Errors plus warnings over the output equal the total number of messages over all files. |
| Aggregation.ReportDistinctIds | src/lint.ts:107-155 | The output has distinct rule ids. |
| Aggregation.ReportWithoutMessages | src/lint.test.ts:18-23 | With no messages at all, the output is empty. |
| Aggregation.FindingsAddUp | src/lint.ts:155 | A non-empty list of records with findings has a positive total. |
| Aggregation.NoFindingsMeansEmpty | src/lint.ts:155 | A list of records with findings whose total is zero is empty. |
| Aggregation.ReportContainsEveryMessagedRule | src/lint.test.ts:93-113 | The rule of every message is reported, requested or not, with its reference record. |
| Aggregation.MentionedIdCounts | src/lint.ts:137-141 | A rule that some message carries has a positive count. |
| Aggregation.RequestedUnknownAbsorbsMissingIds | src/lint.ts:122-123 | When `unknown` is a requested key, a message without a rule id is listed under the requested `unknown` record, which keeps its configured value. |
| Aggregation.DetailListed | src/lint.ts:146-151 | Each message's detail (relative path, line, column, text) is in its rule's details. |
| Aggregation.SingleFileOccurrences | src/lint.ts:120-151 | One file with one message gives exactly one occurrence, with the relative path. |
| Aggregation.SingleOccurrenceRecord | src/lint.ts:122-151 | After one message, its rule's record counts one error (severity 2) or one warning (otherwise), one fixable if the message has a fix, and holds one detail. |
| Aggregation.KeepFindingsNone | src/lint.ts:155 | When no record has findings, nothing is returned. |
| Aggregation.KeepFindingsSingle | src/lint.ts:155 | When exactly one record has findings, only it is returned. |
| Aggregation.SingleMessage | src/lint.test.ts:71-91 | For one file with one message, the output is exactly that rule's single record. Its id is `unknown` when the message has none, and its config is the requested value or `'unknown'`. |
| Lint.CreateRuleFilter | src/lint.ts:12-15 | The filter accepts a rule id exactly when it is an own key of the requested rules. |
| Lint.ExpandPatterns | src/lint.ts:43-54 | The mapping keeps the length. `.` becomes the default source glob. A pattern with none of `* ? [ {` becomes `join(p, default glob)`. Any other pattern is returned unchanged. |
| Lint.IsGlob | src/lint.ts:48 | A pattern counts as a glob when it holds one of `* ? [ {`. |
| Lint.ExpandPattern | src/lint.ts:44-53 | One pattern: `.` becomes the default source glob, a non-glob becomes `join(p, default glob)`, anything else is kept. ExpandPatterns states this for every index. |
| Lint.NotIgnored | src/lint.ts:62-67 | A file is kept exactly when it was found and is not ignored. |
| Lint.CollectFilesToLint | src/lint.ts:62-67 | The `filesToLint` loop keeps the files that are not ignored, in order. |
| Lint.Chunks | src/lint.ts:86-88 | The chunks, concatenated, are the file list. Every chunk is non-empty and holds at most the chunk size. |
| Lint.LintAll | src/lint.ts:87-90 | The results of `lintFiles` for each chunk, one after another. |
| Lint.LintAllNothing | src/lint.ts:87-92 | Linting no chunks yields no results. |
| Lint.LintAllStep | src/lint.ts:87-90 | Linting from a position is the current chunk's results followed by linting from the next position. |
| Lint.LintInChunks | src/lint.ts:83-92 | The chunk loop collects the results of linting every chunk of 10 files, in order. |
| Lint.SeedRecords | src/lint.ts:107-118 | The seeding loop tracks the reference state before any message. |
| Lint.TracksStep | src/lint.ts:122-151 | Updating the record of a message's rule, created with config `'unknown'` if missing, keeps the map in step with the reference. |
| Lint.CountInto | src/lint.ts:137-151 | The in-place updates of one record for one message are the counting rule. |
| Lint.CountMessage | src/lint.ts:122-151 | The body of the inner loop keeps the map and its insertion order in step with the reference. |
| Lint.CountFile | src/lint.ts:121-152 | The inner loop over one file's messages keeps that agreement for all of the file's messages. |
| Lint.ProcessResults | src/lint.ts:106-156 | `processResults` returns exactly the reference report. |
| Lint.RunLint | src/lint.ts:25-97 | `runLint` returns the report of the lint results of every chunk of the files that glob found for the expanded patterns and that are not ignored. It returns `[]` when no file is left. |
| ReportConsole.SortByRuleId | src/report-console.ts:10 | The result is negative, zero or positive exactly when the first rule id precedes, equals or follows the second. |
| ReportConsole.SortBySeverity | src/report-console.ts:18-25 | A larger errors+warnings comes first and a smaller one last. Equal totals fall back to the rule-id comparison. The result is zero only for equal totals and equal ids. |
| ReportConsole.SortByFilePath | src/report-console.ts:33 | The result is negative, zero or positive exactly when the first path precedes, equals or follows the second. |
| ReportConsole.Total | src/report-console.ts:19-20 | The severity weight of a result: errors plus warnings. |
| ReportConsole.ComparatorFor | src/report-console.ts:41-46 | `severity` selects sortBySeverity, and every other option selects sortByRuleId. |
| ReportConsole.SortByRuleIdIsComparator | src/report-console.ts:10 | The rule-id comparator is antisymmetric in sign and transitive. |
| ReportConsole.SortBySeverityIsComparator | src/report-console.ts:18-25 | The severity comparator is antisymmetric in sign and transitive. |
| ReportConsole.SortByFilePathIsComparator | src/report-console.ts:33 | The file-path comparator is antisymmetric in sign and transitive. |
| ReportConsole.StatParts | src/report-console.ts:60-69 | The stats segment has one part per non-zero count, in the order errors, warnings, fixable, each written as `N errors`, `N warnings`, `N fixable`. |
| ReportConsole.Count | src/report-console.ts:62-68 | `${n} errors`, `${n} warnings`, `${n} fixable`: the count in decimal, a space and the noun. |
| ReportConsole.RuleLine | src/report-console.ts:71 | `\n${ruleId} (${stats.join(' | ')})` without styling. |
| ReportConsole.DetailLine | src/report-console.ts:73-75 | `  -> ${filePath}:${line}:${column} - ${message}` without styling. |
| ReportConsole.TotalsLine | src/report-console.ts:80-84 | `Totals | ` and the three counts joined by ` | `, then a newline. |
| ReportConsole.Block | src/report-console.ts:58-76 | The lines one rule prints: its rule line, then one line per detail in file-path order. |
| ReportConsole.Blocks | src/report-console.ts:53-77 | The blocks of the given rules, one after another. |
| ReportConsole.ConsoleReport | src/report-console.ts:40-85 | What the function logs: the header, the blocks of the sorted copy, the separator and the totals of the input. PrintConsoleReport is proved equal to it, and ReportShape and PrintedOrder state its properties. |
| ReportConsole.DetailLines | src/report-console.ts:72-76 | One line per detail, in the given order. |
| ReportConsole.BuildStats | src/report-console.ts:60-69 | The `stats.push` sequence builds that segment. |
| ReportConsole.PrintRule | src/report-console.ts:58-76 | One rule prints its rule line and then its details sorted by file path. |
| ReportConsole.AppendRule | src/report-console.ts:53-76 | Each iteration extends the logged lines by one rule's block. |
| ReportConsole.TotalsOfSortedCopy | src/report-console.ts:41-56 | The totals summed over the sorted copy equal those of the input. |
| ReportConsole.ReportFromSortedCopy | src/report-console.ts:79-84 | After the rule blocks come the separator and the totals line. |
| ReportConsole.PrintRules | src/report-console.ts:48-77 | The loop logs each rule's block in turn and accumulates the three totals over all results. |
| ReportConsole.PrintConsoleReport | src/report-console.ts:40-85 | `printConsoleReport` logs exactly the report: the header, the blocks of the sorted copy, the separator and the totals of the input. |
| ReportConsole.PrintedOrder | src/report-console.ts:41-46 | The printed rules are ordered by the chosen comparator and are a permutation of the input. |
| ReportConsole.SeverityOrder | src/report-console.ts:41-46 | Under `severity`, a rule printed earlier has errors+warnings no smaller than a later one. On a tie, its id is equal or precedes. |
| ReportConsole.DetailsByFilePath | src/report-console.ts:58 | Each rule's details are printed ordered by file path, as a permutation of its details. |
| ReportConsole.BlocksLength | src/report-console.ts:53-77 | The rule blocks take one line per rule plus one per detail. |
| ReportConsole.ReportShape | src/report-console.ts:52-84 | The report has 3 + rules + details lines. It starts with the header and ends with the separator and a totals line over all results. |
| ReportConsole.EmptyReport | src/report-console.ts:52-84 | With no results the report is the header, the separator and a totals line of zeros. |
| ReportConsole.OnlyWarnings | src/report-console.test.ts:79-85 | A rule with only warnings shows `(N warnings)` alone in its rule line. |
| ReportConsole.TotalsShowsAll | src/report-console.ts:80-84 | The totals line always shows all three sums, zeros included. |
| ReportHtml.ReplaceAll | src/report-html.ts:10 | Replacing a character that does not occur changes nothing. The result holds the character only if the replacement does. Every character of the result is a kept character or comes from the replacement. |
| ReportHtml.EscapeHtml | src/report-html.ts:10 | The escaped string holds no `<` and no `>`. A string without `& < >` comes back unchanged. |
| ReportHtml.EscapeChar | src/report-html.ts:10 | What each character becomes: `&amp;`, `&lt;`, `&gt;`, or the character itself. |
| ReportHtml.EscapeEach | src/report-html.ts:10 | Per-character escaping, compared with the three passes by EscapeHtmlIsPerCharacter. |
| ReportHtml.Unescape | src/report-html.ts:10 | Decoding of the three entities. It is the partner of escaping in UnescapeEscapeHtml. |
| ReportHtml.ReplaceAllAppend | src/report-html.ts:10 | `replaceAll` of a concatenation is the concatenation of the parts' replacements. |
| ReportHtml.EscapeHtmlAppend | src/report-html.ts:10 | Escaping distributes over concatenation. |
| ReportHtml.EscapeHtmlChar | src/report-html.ts:10 | A single character escapes to its entity (`&amp;`, `&lt;`, `&gt;`) or to itself. |
| ReportHtml.EscapeHtmlIsPerCharacter | src/report-html.ts:10 | The three passes, `&` first, equal escaping each character on its own. |
| ReportHtml.EscapeHtmlExample | src/report-html.test.ts:5-9 | `escapeHtml('<>&')` is `&lt;&gt;&amp;`. |
| ReportHtml.WrongOrderDoubleEscapes | src/report-html.ts:10 | Replacing `<` before `&` would turn `<` into `&amp;lt;`. The actual order gives `&lt;`. |
| ReportHtml.UnescapeEscapeHtml | src/report-html.ts:10 | Escaping loses nothing: decoding the three entities gives back the original string. |
| ReportHtml.UnescapeEscapeEach | src/report-html.ts:10 | Per-character escaping is undone by decoding the three entities. |
| ReportHtml.ListItem | src/report-html.ts:34 | `<li><code>path:line:column</code> - message</li>`, with the path and the message escaped. |
| ReportHtml.ListItems | src/report-html.ts:33-35 | One list item per detail, in detail order. |
| ReportHtml.DetailsRow | src/report-html.ts:29-37 | The hidden details row around the joined list items when there are details, and the empty string otherwise. |
| ReportHtml.Toggle | src/report-html.ts:30-38 | The active toggle with its click handler when there are details, and the inactive grey one otherwise. |
| ReportHtml.ConfigOrNotAvailable | src/report-html.ts:28 | `r.config ?? 'N/A'`: only `undefined` and `null` are replaced. |
| ReportHtml.ConfigCell | src/report-html.ts:28 | The config cell holds no `<` and no `>`. |
| ReportHtml.Row | src/report-html.ts:41-47 | The primary row and its details row: the toggle and escaped rule id, the config cell, the three counts, then the details row. |
| ReportHtml.Rows | src/report-html.ts:22-48 | One row per result, in input order. |
| ReportHtml.Page | src/report-html.ts:51-84 | The page template around the rows, with the three totals in the footer cells. |
| ReportHtml.Html | src/report-html.ts:17-85 | What the function returns: the rows joined by the row separator, inside the page, with the sums over all results in the footer. GenerateHtml is proved equal to it. |
| ReportHtml.RenderRow | src/report-html.ts:23-47 | The `map` callback builds that result's row. |
| ReportHtml.GenerateHtml | src/report-html.ts:17-85 | `generateHtml` returns the page of the joined rows, with footer totals summed over all results. |
| ReportHtml.DetailsRowIffDetails | src/report-html.ts:29-39 | A hidden details row is present exactly when there are details. The toggle is the inactive one exactly when there are none. |
| ReportHtml.DetailsListInOrder | src/report-html.ts:33-35 | The detail list is the single items, concatenated in detail order. |
| ReportHtml.SingleDetailRow | src/report-html.ts:33-37 | One detail gives a hidden row holding exactly its list item. |
| ReportHtml.NoDetailsRow | src/report-html.ts:30-47 | A result without details renders with the inactive `#ccc` toggle, the escaped rule id, the config cell and the three counts, and has no details row. |
| ReportHtml.ConfigCellCases | src/report-html.ts:28 | `undefined` and `null` configs show the escaped JSON of `'N/A'`. Every other config shows its own escaped JSON, including the `'unknown'` string of unrequested rules. |
| ReportHtml.RowsInInputOrder | src/report-html.ts:22-49 | Adding a result appends its row after the others, separated by the row separator. |
| ReportHtml.EmptyHtml | src/report-html.test.ts:60-64 | With no results the page has no rows and footer totals of `0`. |
| ReportHtml.FooterTotals | src/report-html.ts:18-26 | The footer's three cells are the totals over the results, the same for any reordering of them. |

## Left out

- The ESLint engine, tinyglobby's `glob`, `isPathIgnored` and `lintFiles` (src/lint.ts:26-60, 64, 89) are foreign library calls. They are unconstrained function parameters, so the model does not know which files exist or what ESLint reports.
- The progress bar, the console messages `Searching for files...` and `No files found to lint.`, and the `await`s of `runLint` (src/lint.ts:40, 70, 74-94) are I/O and concurrency. The chunk loop is modelled sequentially.
- `path.relative`, `path.join` and `JSON.stringify` are uninterpreted functions. No property of path syntax or JSON text is used.
- ansis styling is dropped: each console line is the plain text handed to `console.log`.
- `localeCompare` is modelled as code-point lexicographic order. Locale collation rules are not modelled.
- `toSorted`'s stability is implemented but not stated. With the comparators here, ties only occur between records with the same rule id, or between details with the same file path.
- Numbers are integers. The message's line and column are `int`, the counts are `nat`, and `Config.Number` holds an integer: floating-point config values are not modelled.
- `Object.keys` order is taken as the given key sequence. The rule that integer-like keys come first is not modelled.
- The JS `Map` and the mutable records are values in the model: a map from rule id to record, plus the insertion order. The aliasing between the record `rr` and the map entry is captured by writing the updated record back into the map.
- `printConsoleReport` cannot mutate its input in the model, so "the input is left unchanged" holds by construction, not by proof.
- The CSS and inline-JS template text is kept as opaque constants, reproduced from src/report-html.ts:30-84.
- src/rules.ts (reading and validating the rules file), src/index.ts (the command line, file writing and timing) and the test configuration are not part of this model.
