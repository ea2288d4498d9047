/** src/report-console.ts: the three comparators and `printConsoleReport`. The report is the
    sequence of strings handed to `console.log`, one per call, without the terminal styling. */
module ReportConsole {
  import opened Types
  import opened Seqs
  import opened Strings
  import opened Sorting

  // ---- Comparators ----

  /** `sortByRuleId`: negative, zero or positive as `a.ruleId` precedes, equals or follows `b.ruleId`. */
  function SortByRuleId(a: RuleResult, b: RuleResult): (c: int)
    ensures c < 0 <==> Precedes(a.ruleId, b.ruleId)
    ensures c == 0 <==> a.ruleId == b.ruleId
    ensures c > 0 <==> Precedes(b.ruleId, a.ruleId)
  {
    LexCompareMeaning(a.ruleId, b.ruleId);
    LexCompare(a.ruleId, b.ruleId)
  }

  function Total(r: RuleResult): nat
  {
    r.errors + r.warnings
  }

  /** `sortBySeverity`: more findings (errors + warnings) first; equal totals fall back to
      `sortByRuleId`, so it only ties two results with the same total and the same id. */
  function SortBySeverity(a: RuleResult, b: RuleResult): (c: int)
    ensures Total(a) > Total(b) ==> c < 0
    ensures Total(a) < Total(b) ==> c > 0
    ensures Total(a) == Total(b) ==> c == SortByRuleId(a, b)
    ensures c == 0 <==> Total(a) == Total(b) && a.ruleId == b.ruleId
  {
    var totalA := Total(a);
    var totalB := Total(b);
    if totalA != totalB then totalB - totalA else SortByRuleId(a, b)
  }

  /** `sortByFilePath`: negative, zero or positive as `a.filePath` precedes, equals or follows `b.filePath`. */
  function SortByFilePath(a: MessageDetail, b: MessageDetail): (c: int)
    ensures c < 0 <==> Precedes(a.filePath, b.filePath)
    ensures c == 0 <==> a.filePath == b.filePath
    ensures c > 0 <==> Precedes(b.filePath, a.filePath)
  {
    LexCompareMeaning(a.filePath, b.filePath);
    LexCompare(a.filePath, b.filePath)
  }

  /** The comparator `printConsoleReport` sorts with. */
  function ComparatorFor(sortOption: SortOption): (RuleResult, RuleResult) -> int
  {
    if sortOption == BySeverity then SortBySeverity else SortByRuleId
  }

  lemma SortByRuleIdIsComparator()
    ensures IsComparator(SortByRuleId)
  {
    forall a: RuleResult, b: RuleResult ensures SortByRuleId(a, b) < 0 <==> SortByRuleId(b, a) > 0 {
      LexCompareAntisymmetric(a.ruleId, b.ruleId);
    }
    forall a: RuleResult, b: RuleResult, c: RuleResult | SortByRuleId(a, b) <= 0 && SortByRuleId(b, c) <= 0
      ensures SortByRuleId(a, c) <= 0
    {
      LexCompareTransitive(a.ruleId, b.ruleId, c.ruleId);
    }
  }

  lemma SortBySeverityIsComparator()
    ensures IsComparator(SortBySeverity)
  {
    forall a: RuleResult, b: RuleResult ensures SortBySeverity(a, b) < 0 <==> SortBySeverity(b, a) > 0 {
      LexCompareAntisymmetric(a.ruleId, b.ruleId);
    }
    forall a: RuleResult, b: RuleResult, c: RuleResult | SortBySeverity(a, b) <= 0 && SortBySeverity(b, c) <= 0
      ensures SortBySeverity(a, c) <= 0
    {
      if Total(a) == Total(b) == Total(c) {
        LexCompareTransitive(a.ruleId, b.ruleId, c.ruleId);
      }
    }
  }

  lemma SortByFilePathIsComparator()
    ensures IsComparator(SortByFilePath)
  {
    forall a: MessageDetail, b: MessageDetail ensures SortByFilePath(a, b) < 0 <==> SortByFilePath(b, a) > 0 {
      LexCompareAntisymmetric(a.filePath, b.filePath);
    }
    forall a: MessageDetail, b: MessageDetail, c: MessageDetail | SortByFilePath(a, b) <= 0 && SortByFilePath(b, c) <= 0
      ensures SortByFilePath(a, c) <= 0
    {
      LexCompareTransitive(a.filePath, b.filePath, c.filePath);
    }
  }

  // ---- Lines ----

  const Header: string := "\n--- CLI Report ---"
  const Separator: string := "\n------------------"
  const StatSeparator: string := " | "

  /** `${n} errors`, `${n} warnings`, `${n} fixable`. */
  function Count(n: nat, noun: string): string
  {
    NatToString(n) + " " + noun
  }

  /** The parts of a rule's stats segment: the non-zero counts only, errors, warnings, fixable. */
  function StatParts(r: RuleResult): (parts: seq<string>)
    ensures |parts| == (if r.errors > 0 then 1 else 0) + (if r.warnings > 0 then 1 else 0) + (if r.fixable > 0 then 1 else 0)
    ensures r.errors > 0 ==> parts[0] == Count(r.errors, "errors")
    ensures r.warnings > 0 ==> parts[if r.errors > 0 then 1 else 0] == Count(r.warnings, "warnings")
    ensures r.fixable > 0 ==> parts[|parts| - 1] == Count(r.fixable, "fixable")
  {
    (if r.errors > 0 then [Count(r.errors, "errors")] else []) +
    (if r.warnings > 0 then [Count(r.warnings, "warnings")] else []) +
    (if r.fixable > 0 then [Count(r.fixable, "fixable")] else [])
  }

  /** `\n${ruleId} (${stats.join(' | ')})`. */
  function RuleLine(ruleId: string, stats: seq<string>): string
  {
    "\n" + ruleId + " (" + Join(stats, StatSeparator) + ")"
  }

  /** `  -> ${filePath}:${line}:${column} - ${message}`. */
  function DetailLine(d: MessageDetail): string
  {
    "  -> " + d.filePath + ":" + IntToString(d.line) + ":" + IntToString(d.column) + " - " + d.message
  }

  /** `Totals | ${e} errors | ${w} warnings | ${f} fixable` and a newline. */
  function TotalsLine(errors: nat, warnings: nat, fixable: nat): string
  {
    "Totals | " + Join([Count(errors, "errors"), Count(warnings, "warnings"), Count(fixable, "fixable")], StatSeparator) + "\n"
  }

  /** One detail line per detail, in the order given. */
  function DetailLines(ds: seq<MessageDetail>): (lines: seq<string>)
    ensures |lines| == |ds|
    ensures forall i :: 0 <= i < |ds| ==> lines[i] == DetailLine(ds[i])
  {
    Map(DetailLine, ds)
  }

  /** The lines printed for one rule: its rule line and its details ordered by file path. */
  function Block(r: RuleResult): seq<string>
  {
    [RuleLine(r.ruleId, StatParts(r))] + DetailLines(SortBy(r.details, SortByFilePath))
  }

  function Blocks(rs: seq<RuleResult>): seq<string>
  {
    if rs == [] then [] else Blocks(rs[..|rs| - 1]) + Block(rs[|rs| - 1])
  }

  /** What `printConsoleReport(results, sortOption)` prints. */
  function ConsoleReport(results: seq<RuleResult>, sortOption: SortOption): seq<string>
  {
    [Header] + Blocks(SortBy(results, ComparatorFor(sortOption))) +
    [Separator, TotalsLine(SumErrors(results), SumWarnings(results), SumFixable(results))]
  }

  // ---- printConsoleReport ----

  /** The stats segment built with `push`. */
  method BuildStats(r: RuleResult) returns (stats: seq<string>)
    ensures stats == StatParts(r)
  {
    stats := [];
    if r.errors > 0 {
      stats := stats + [Count(r.errors, "errors")];
    }
    if r.warnings > 0 {
      stats := stats + [Count(r.warnings, "warnings")];
    }
    if r.fixable > 0 {
      stats := stats + [Count(r.fixable, "fixable")];
    }
  }

  /** The lines of one pass of the loop of `printConsoleReport`: the rule line with its stats,
      then each detail in file-path order. */
  method PrintRule(r: RuleResult) returns (block: seq<string>)
    ensures block == Block(r)
  {
    var sortedDetails := SortBy(r.details, SortByFilePath);
    var stats := BuildStats(r);
    block := [RuleLine(r.ruleId, stats)];
    for k := 0 to |sortedDetails|
      invariant block == [RuleLine(r.ruleId, stats)] + DetailLines(sortedDetails[..k])
    {
      MapSnoc(DetailLine, sortedDetails, k);
      AppendAssoc([RuleLine(r.ruleId, stats)], DetailLines(sortedDetails[..k]), [DetailLine(sortedDetails[k])]);
      block := block + [DetailLine(sortedDetails[k])];
    }
    assert sortedDetails[..|sortedDetails|] == sortedDetails;
  }

  /** Regrouping a concatenation. Dafny knows this already; stating it as a separate lemma
      keeps the solver from searching for it inside the loops above and below, which is
      much cheaper. */
  lemma AppendAssoc<T>(a: seq<T>, b: seq<T>, c: seq<T>)
    ensures (a + b) + c == a + (b + c)
  {
  }

  /** Printing the next rule's block extends the printed lines by that block. */
  method AppendRule(lines: seq<string>, ghost done: seq<RuleResult>, r: RuleResult) returns (lines': seq<string>)
    requires lines == [Header] + Blocks(done)
    ensures lines' == [Header] + Blocks(done + [r])
  {
    var block := PrintRule(r);
    assert (done + [r])[..|done|] == done;
    AppendAssoc([Header], Blocks(done), block);
    lines' := lines + block;
  }

  /** Summing over the sorted copy gives the totals of the input. */
  lemma TotalsOfSortedCopy(results: seq<RuleResult>, sortOption: SortOption)
    ensures var sorted := SortBy(results, ComparatorFor(sortOption));
      && SumErrors(sorted) == SumErrors(results)
      && SumWarnings(sorted) == SumWarnings(results)
      && SumFixable(sorted) == SumFixable(results)
  {
    SumsPermutation(SortBy(results, ComparatorFor(sortOption)), results);
  }

  /** The lines of every rule in the sorted copy, then the totals summed over that copy,
      make up the report. */
  lemma ReportFromSortedCopy(results: seq<RuleResult>, sortOption: SortOption, lines: seq<string>)
    requires lines == [Header] + Blocks(SortBy(results, ComparatorFor(sortOption)))
    ensures var sorted := SortBy(results, ComparatorFor(sortOption));
      lines + [Separator, TotalsLine(SumErrors(sorted), SumWarnings(sorted), SumFixable(sorted))]
        == ConsoleReport(results, sortOption)
  {
    TotalsOfSortedCopy(results, sortOption);
  }

  /** The loop of `printConsoleReport`: each rule's block in turn, and the running totals. */
  method PrintRules(finalResults: seq<RuleResult>) returns (lines: seq<string>, totalErrors: nat, totalWarnings: nat, totalFixable: nat)
    ensures lines == [Header] + Blocks(finalResults)
    ensures totalErrors == SumErrors(finalResults)
    ensures totalWarnings == SumWarnings(finalResults)
    ensures totalFixable == SumFixable(finalResults)
  {
    totalErrors, totalWarnings, totalFixable := 0, 0, 0;
    lines := [Header];
    assert finalResults[..0] == [];
    for i := 0 to |finalResults|
      invariant totalErrors == SumErrors(finalResults[..i])
      invariant totalWarnings == SumWarnings(finalResults[..i])
      invariant totalFixable == SumFixable(finalResults[..i])
      invariant lines == [Header] + Blocks(finalResults[..i])
    {
      var r := finalResults[i];
      SumsSnoc(finalResults, i);
      totalErrors := totalErrors + r.errors;
      totalWarnings := totalWarnings + r.warnings;
      totalFixable := totalFixable + r.fixable;
      lines := AppendRule(lines, finalResults[..i], r);
      TakeSnoc(finalResults, i);
    }
    assert finalResults[..|finalResults|] == finalResults;
  }

  /** `printConsoleReport`: sort a copy, print each rule with its details while summing the
      totals, then the separator and the totals. */
  method PrintConsoleReport(results: seq<RuleResult>, sortOption: SortOption) returns (lines: seq<string>)
    ensures lines == ConsoleReport(results, sortOption)
  {
    var finalResults := SortBy(results, ComparatorFor(sortOption));
    var totalErrors, totalWarnings, totalFixable;
    lines, totalErrors, totalWarnings, totalFixable := PrintRules(finalResults);
    ReportFromSortedCopy(results, sortOption, lines);
    lines := lines + [Separator, TotalsLine(totalErrors, totalWarnings, totalFixable)];
  }

  // ---- Properties of the report ----

  /** The rules are printed in an order sorted by the chosen comparator, and they are the
      input's rules, each exactly as often as in the input. */
  lemma PrintedOrder(results: seq<RuleResult>, sortOption: SortOption)
    ensures var printed := SortBy(results, ComparatorFor(sortOption));
      && SortedBy(printed, ComparatorFor(sortOption))
      && multiset(printed) == multiset(results)
      && |printed| == |results|
  {
    if sortOption == BySeverity {
      SortBySeverityIsComparator();
    } else {
      SortByRuleIdIsComparator();
    }
    SortBySorted(results, ComparatorFor(sortOption));
  }

  /** With the severity option, a result with more findings is printed before one with fewer,
      and results with equal totals are printed by rule id. */
  lemma SeverityOrder(results: seq<RuleResult>, i: nat, j: nat)
    requires i < j < |SortBy(results, SortBySeverity)|
    ensures var printed := SortBy(results, SortBySeverity);
      && Total(printed[i]) >= Total(printed[j])
      && (Total(printed[i]) == Total(printed[j]) ==> printed[i].ruleId == printed[j].ruleId || Precedes(printed[i].ruleId, printed[j].ruleId))
  {
    PrintedOrder(results, BySeverity);
    var printed := SortBy(results, SortBySeverity);
    assert SortBySeverity(printed[i], printed[j]) <= 0;
  }

  /** A rule's details are printed in ascending file-path order, each exactly once. */
  lemma DetailsByFilePath(r: RuleResult)
    ensures var sorted := SortBy(r.details, SortByFilePath);
      && SortedBy(sorted, SortByFilePath)
      && multiset(sorted) == multiset(r.details)
      && |sorted| == |r.details|
  {
    SortByFilePathIsComparator();
    SortBySorted(r.details, SortByFilePath);
  }

  lemma {:induction false} BlocksLength(rs: seq<RuleResult>)
    ensures |Blocks(rs)| == |rs| + SumDetails(rs)
  {
    if rs != [] {
      BlocksLength(rs[..|rs| - 1]);
      DetailsByFilePath(rs[|rs| - 1]);
    }
  }

  /** A header line, one rule line plus one line per detail for each rule, then the separator
      and the totals line with the sums over all results. */
  lemma ReportShape(results: seq<RuleResult>, sortOption: SortOption)
    ensures var lines := ConsoleReport(results, sortOption);
      && |lines| == 3 + |results| + SumDetails(results)
      && lines[0] == Header
      && lines[|lines| - 2] == Separator
      && lines[|lines| - 1] == TotalsLine(SumErrors(results), SumWarnings(results), SumFixable(results))
  {
    var printed := SortBy(results, ComparatorFor(sortOption));
    PrintedOrder(results, sortOption);
    BlocksLength(printed);
    SumsPermutation(printed, results);
  }

  /** For no results the report is the header, the separator and all-zero totals. */
  lemma EmptyReport(sortOption: SortOption)
    ensures ConsoleReport([], sortOption) == [Header, Separator, TotalsLine(0, 0, 0)]
  {
    assert SortBy([], ComparatorFor(sortOption)) == [];
  }

  /** The stats segment of a rule with only warnings shows only its warnings. */
  lemma OnlyWarnings(r: RuleResult)
    requires r.errors == 0 && r.fixable == 0 && r.warnings > 0
    ensures RuleLine(r.ruleId, StatParts(r)) == "\n" + r.ruleId + " (" + Count(r.warnings, "warnings") + ")"
  {
  }

  /** The totals line always shows all three counts, zeros included. */
  lemma TotalsShowsAll(errors: nat, warnings: nat, fixable: nat)
    ensures TotalsLine(errors, warnings, fixable)
      == "Totals | " + Count(errors, "errors") + " | " + Count(warnings, "warnings") + " | " + Count(fixable, "fixable") + "\n"
  {
    var parts := [Count(errors, "errors"), Count(warnings, "warnings"), Count(fixable, "fixable")];
    assert parts[..2][..1] == [parts[0]];
    assert Join(parts[..2][..1], StatSeparator) == parts[0];
    assert Join(parts[..2], StatSeparator) == parts[0] + StatSeparator + parts[1];
    assert Join(parts, StatSeparator) == parts[0] + StatSeparator + parts[1] + StatSeparator + parts[2];
  }
}
