/** src/report-html.ts: `escapeHtml` and `generateHtml`. `JSON.stringify` is the parameter
    `stringify`; the page's template text (styles, inline script) is kept as constants. */
module ReportHtml {
  import opened Types
  import opened Seqs
  import opened Strings

  // ---- escapeHtml ----

  /** `s.replaceAll(c, by)` for a one-character pattern. */
  function ReplaceAll(s: string, c: char, with: string): (r: string)
    ensures c !in s ==> r == s
    ensures c !in with ==> c !in r
    ensures forall x :: x in r ==> (x in s && x != c) || x in with
  {
    if s == [] then [] else (if s[0] == c then with else [s[0]]) + ReplaceAll(s[1..], c, with)
  }

  /** `escapeHtml`: `&` first, then `<`, then `>`. */
  function EscapeHtml(s: string): (r: string)
    ensures '<' !in r && '>' !in r
    ensures '&' !in s && '<' !in s && '>' !in s ==> r == s
  {
    ReplaceAll(ReplaceAll(ReplaceAll(s, '&', "&amp;"), '<', "&lt;"), '>', "&gt;")
  }

  /** What each character becomes. */
  function EscapeChar(c: char): string
  {
    if c == '&' then "&amp;" else if c == '<' then "&lt;" else if c == '>' then "&gt;" else [c]
  }

  /** Character-by-character escaping, the reference `escapeHtml` is compared with. */
  function EscapeEach(s: string): string
  {
    if s == [] then [] else EscapeChar(s[0]) + EscapeEach(s[1..])
  }

  lemma {:induction false} ReplaceAllAppend(a: string, b: string, c: char, with: string)
    ensures ReplaceAll(a + b, c, with) == ReplaceAll(a, c, with) + ReplaceAll(b, c, with)
    decreases |a|
  {
    if a == [] {
      assert a + b == b;
    } else {
      assert (a + b)[0] == a[0];
      assert (a + b)[1..] == a[1..] + b;
      ReplaceAllAppend(a[1..], b, c, with);
    }
  }

  lemma EscapeHtmlAppend(a: string, b: string)
    ensures EscapeHtml(a + b) == EscapeHtml(a) + EscapeHtml(b)
  {
    ReplaceAllAppend(a, b, '&', "&amp;");
    ReplaceAllAppend(ReplaceAll(a, '&', "&amp;"), ReplaceAll(b, '&', "&amp;"), '<', "&lt;");
    ReplaceAllAppend(ReplaceAll(ReplaceAll(a, '&', "&amp;"), '<', "&lt;"),
                     ReplaceAll(ReplaceAll(b, '&', "&amp;"), '<', "&lt;"), '>', "&gt;");
  }

  lemma ReplaceAllSingle(x: char, c: char, with: string)
    ensures ReplaceAll([x], c, with) == if x == c then with else [x]
  {
    assert [x][1..] == [];
  }

  lemma EscapeHtmlChar(c: char)
    ensures EscapeHtml([c]) == EscapeChar(c)
  {
    ReplaceAllSingle(c, '&', "&amp;");
    if c == '&' {
      assert '<' !in "&amp;" && '>' !in "&amp;";
    } else if c == '<' {
      ReplaceAllSingle(c, '<', "&lt;");
      assert '>' !in "&lt;";
    } else if c == '>' {
      ReplaceAllSingle(c, '<', "&lt;");
      ReplaceAllSingle(c, '>', "&gt;");
    } else {
      ReplaceAllSingle(c, '<', "&lt;");
      ReplaceAllSingle(c, '>', "&gt;");
    }
  }

  /** The three passes of `replaceAll` together replace each character by its escape, so no
      escape produced by the first pass is escaped again. */
  lemma {:induction false} EscapeHtmlIsPerCharacter(s: string)
    ensures EscapeHtml(s) == EscapeEach(s)
    decreases |s|
  {
    if s == [] {
    } else {
      assert s == [s[0]] + s[1..];
      EscapeHtmlAppend([s[0]], s[1..]);
      EscapeHtmlChar(s[0]);
      EscapeHtmlIsPerCharacter(s[1..]);
    }
  }

  /** `escapeHtml('<>&') === '&lt;&gt;&amp;'`. */
  lemma EscapeHtmlExample()
    ensures EscapeHtml("<>&") == "&lt;&gt;&amp;"
  {
    EscapeHtmlIsPerCharacter("<>&");
    EscapeEachExample();
  }

  lemma EscapeEachExample()
    ensures EscapeEach("<>&") == "&lt;&gt;&amp;"
  {
    assert "&"[1..] == [];
    assert EscapeEach("&") == "&amp;";
    assert ">&"[1..] == "&";
    assert EscapeEach(">&") == "&gt;" + "&amp;";
    assert "<>&"[1..] == ">&";
    assert EscapeEach("<>&") == "&lt;" + "&gt;" + "&amp;";
    EntitiesJoined();
  }

  /** The three entities written one after another. A separate lemma only so that the solver
      does not have to assemble the literal inside the example above, which is costly. */
  lemma EntitiesJoined()
    ensures "&lt;" + "&gt;" + "&amp;" == "&lt;&gt;&amp;"
  {
  }

  /** Replacing `<` before `&` would escape the `&` of `&lt;` again: the order of the passes matters. */
  lemma WrongOrderDoubleEscapes()
    ensures ReplaceAll(ReplaceAll("<", '<', "&lt;"), '&', "&amp;") == "&amp;lt;"
    ensures EscapeHtml("<") == "&lt;"
  {
    ReplaceAllSingle('<', '<', "&lt;");
    EscapeEntityAgain();
    EscapeHtmlChar('<');
  }

  lemma EscapeEntityAgain()
    ensures ReplaceAll("&lt;", '&', "&amp;") == "&amp;lt;"
  {
    assert "&lt;" == ['&'] + "lt;";
    ReplaceAllAppend(['&'], "lt;", '&', "&amp;");
    ReplaceAllSingle('&', '&', "&amp;");
    assert '&' !in "lt;";
    assert "&amp;" + "lt;" == "&amp;lt;";
  }

  /** Reads escaped text back: the three entities become their characters. */
  function Unescape(s: string): string
    decreases |s|
  {
    if s == [] then []
    else if |s| >= 5 && s[..5] == "&amp;" then "&" + Unescape(s[5..])
    else if |s| >= 4 && s[..4] == "&lt;" then "<" + Unescape(s[4..])
    else if |s| >= 4 && s[..4] == "&gt;" then ">" + Unescape(s[4..])
    else [s[0]] + Unescape(s[1..])
  }

  /** Escaping loses nothing: unescaping the output gives the input back. */
  lemma {:induction false} UnescapeEscapeHtml(s: string)
    ensures Unescape(EscapeHtml(s)) == s
  {
    EscapeHtmlIsPerCharacter(s);
    UnescapeEscapeEach(s);
  }

  lemma {:induction false} UnescapeEscapeEach(s: string)
    ensures Unescape(EscapeEach(s)) == s
    decreases |s|
  {
    if s != [] {
      UnescapeEscapeEach(s[1..]);
      UnescapeEscapeChar(s[0], EscapeEach(s[1..]));
      assert s == [s[0]] + s[1..];
    }
  }

  /** Unescaping reads one escaped character back and goes on after it. */
  lemma UnescapeEscapeChar(c: char, t: string)
    ensures Unescape(EscapeChar(c) + t) == [c] + Unescape(t)
  {
    if c == '&' {
      UnescapeAmp(t);
    } else if c == '<' || c == '>' {
      UnescapeShortEntity(c, t);
    } else {
      var e := [c] + t;
      assert e[0] == c && e[1..] == t;
    }
  }

  lemma UnescapeAmp(t: string)
    ensures Unescape("&amp;" + t) == "&" + Unescape(t)
  {
    var e := "&amp;" + t;
    assert e[..5] == "&amp;" && e[5..] == t;
  }

  /** `&lt;` and `&gt;`: a four-character entity whose second letter tells the two apart. */
  lemma UnescapeShortEntity(c: char, t: string)
    requires c == '<' || c == '>'
    ensures Unescape(EscapeChar(c) + t) == [c] + Unescape(t)
  {
    if c == '<' {
      var e := "&lt;" + t;
      assert e[1] == 'l';
      assert e[..4] == "&lt;" && e[4..] == t;
    } else {
      var e := "&gt;" + t;
      assert e[1] == 'g';
      assert e[..4] == "&gt;" && e[4..] == t;
    }
  }

  // ---- generateHtml ----

  const Title: string := "ESLint try rules"
  const NotAvailable: string := "N/A"

  /** The toggle of a rule without details: grey, with no click handler. */
  const InactiveToggle: string := "<span style=\"color:#ccc;\">&#x25B6;</span>"

  /** The toggle of a rule with details: shows or hides the details row that follows. */
  const ActiveToggle: string := "<span style=\"cursor:pointer;\" onclick=\"const r=this.closest('tr').nextElementSibling;r.style.display=r.style.display==='none'?'table-row':'none';this.innerHTML=r.style.display==='none'?'&#x25B6;':'&#x25BC;'\">&#x25B6;</span>"

  const DetailsRowStart: string := "<tr style=\"display:none;background:#f9f9f9;\"><td colspan=\"5\"><ul>"
  const DetailsRowEnd: string := "</ul></td></tr>"
  const RowSeparator: string := "\n\t\t\t\t"

  const PageStart: string :=
    "<!DOCTYPE html>\n<html lang=\"en\">\n<head>\n\t<meta charset=\"UTF-8\">\n\t<title>" + Title + "</title>\n\t<style>\n" +
    "\t\tbody { font-family: sans-serif; margin: 2rem; }\n" +
    "\t\ttable { border-collapse: collapse; width: 100%; }\n" +
    "\t\tth, td { border: 1px solid #ddd; padding: 8px; text-align: right; vertical-align: top; }\n" +
    "\t\tth:first-child, td:first-child, th:nth-child(2), td:nth-child(2) { text-align: left; }\n" +
    "\t\tul { margin: 0; padding-left: 20px; font-size: 0.9em; }\n" +
    "\t\ttfoot { font-weight: bold; background: #eee; }\n" +
    "\t</style>\n</head>\n<body>\n\t<h1>" + Title + "</h1>\n\t<table>\n\t\t<thead>\n" +
    "\t\t\t<tr><th>Rule</th><th>Config</th><th>Errors</th><th>Warnings</th><th>Fixable</th></tr>\n" +
    "\t\t</thead>\n\t\t<tbody>\n\t\t\t"

  const FooterStart: string := "\n\t\t</tbody>\n\t\t<tfoot>\n\t\t\t<tr>\n\t\t\t\t<td colspan=\"2\">Totals</td>\n\t\t\t\t<td>"
  const CellBreak: string := "</td>\n\t\t\t\t<td>"
  const PageEnd: string := "</td>\n\t\t\t</tr>\n\t\t</tfoot>\n\t</table>\n</body>\n</html>"

  /** One finding: `<li><code>path:line:column</code> - message</li>`, path and message escaped. */
  function ListItem(d: MessageDetail): string
  {
    "<li><code>" + EscapeHtml(d.filePath) + ":" + IntToString(d.line) + ":" + IntToString(d.column) +
    "</code> - " + EscapeHtml(d.message) + "</li>"
  }

  /** One list item per detail, in detail order. */
  function ListItems(ds: seq<MessageDetail>): (items: seq<string>)
    ensures |items| == |ds|
    ensures forall i :: 0 <= i < |ds| ==> items[i] == ListItem(ds[i])
  {
    seq(|ds|, i requires 0 <= i < |ds| => ListItem(ds[i]))
  }

  /** The hidden details row, or nothing. */
  function DetailsRow(ds: seq<MessageDetail>): string
  {
    if |ds| > 0 then DetailsRowStart + Join(ListItems(ds), "") + DetailsRowEnd else ""
  }

  function Toggle(ds: seq<MessageDetail>): string
  {
    if |ds| > 0 then ActiveToggle else InactiveToggle
  }

  /** `r.config ?? 'N/A'`: only `undefined` and `null` are replaced. */
  function ConfigOrNotAvailable(config: Config): Config
  {
    if config.Undefined? || config.Null? then Str(NotAvailable) else config
  }

  /** The config cell: the escaped JSON text of the config, or of "N/A". */
  function ConfigCell(config: Config, stringify: Config -> string): (cell: string)
    ensures '<' !in cell && '>' !in cell
  {
    EscapeHtml(stringify(ConfigOrNotAvailable(config)))
  }

  /** The primary row of a result followed by its details row. */
  function Row(r: RuleResult, stringify: Config -> string): string
  {
    "<tr>\n\t\t\t\t<td>" + Toggle(r.details) + " " + EscapeHtml(r.ruleId) +
    "</td>\n\t\t\t\t<td><code>" + ConfigCell(r.config, stringify) +
    "</code></td>\n\t\t\t\t<td>" + NatToString(r.errors) +
    "</td>\n\t\t\t\t<td>" + NatToString(r.warnings) +
    "</td>\n\t\t\t\t<td>" + NatToString(r.fixable) +
    "</td>\n\t\t\t</tr>\n\t\t\t\t" + DetailsRow(r.details)
  }

  /** One row per result, in input order. */
  function Rows(results: seq<RuleResult>, stringify: Config -> string): (rows: seq<string>)
    ensures |rows| == |results|
    ensures forall i :: 0 <= i < |results| ==> rows[i] == Row(results[i], stringify)
  {
    Map((r: RuleResult) => Row(r, stringify), results)
  }

  /** The page around the rows, with the three totals in the footer. */
  function Page(rows: string, totalErr: nat, totalWarn: nat, totalFix: nat): string
  {
    PageStart + rows + FooterStart + NatToString(totalErr) + CellBreak + NatToString(totalWarn) +
    CellBreak + NatToString(totalFix) + PageEnd
  }

  /** What `generateHtml(results)` returns. */
  function Html(results: seq<RuleResult>, stringify: Config -> string): string
  {
    Page(Join(Rows(results, stringify), RowSeparator), SumErrors(results), SumWarnings(results), SumFixable(results))
  }

  /** The `map` callback of `generateHtml`, apart from the totals. */
  method RenderRow(r: RuleResult, stringify: Config -> string) returns (row: string)
    ensures row == Row(r, stringify)
  {
    var confStr := EscapeHtml(stringify(ConfigOrNotAvailable(r.config)));
    var detailsRow := "";
    var toggleIcon := InactiveToggle;
    if |r.details| > 0 {
      var list := Join(ListItems(r.details), "");
      detailsRow := DetailsRowStart + list + DetailsRowEnd;
      toggleIcon := ActiveToggle;
    }
    row := "<tr>\n\t\t\t\t<td>" + toggleIcon + " " + EscapeHtml(r.ruleId) +
      "</td>\n\t\t\t\t<td><code>" + confStr +
      "</code></td>\n\t\t\t\t<td>" + NatToString(r.errors) +
      "</td>\n\t\t\t\t<td>" + NatToString(r.warnings) +
      "</td>\n\t\t\t\t<td>" + NatToString(r.fixable) +
      "</td>\n\t\t\t</tr>\n\t\t\t\t" + detailsRow;
  }

  /** `generateHtml`: one pass over the results building the rows and summing the totals. */
  method GenerateHtml(results: seq<RuleResult>, stringify: Config -> string) returns (html: string)
    ensures html == Html(results, stringify)
  {
    var totalErr: nat, totalWarn: nat, totalFix: nat := 0, 0, 0;
    var rows: seq<string> := [];
    for i := 0 to |results|
      invariant totalErr == SumErrors(results[..i])
      invariant totalWarn == SumWarnings(results[..i])
      invariant totalFix == SumFixable(results[..i])
      invariant rows == Rows(results[..i], stringify)
    {
      var r := results[i];
      SumsSnoc(results, i);
      totalErr := totalErr + r.errors;
      totalWarn := totalWarn + r.warnings;
      totalFix := totalFix + r.fixable;
      var row := RenderRow(r, stringify);
      MapSnoc((r: RuleResult) => Row(r, stringify), results, i);
      rows := rows + [row];
    }
    assert results[..|results|] == results;
    ghost var body := Join(rows, RowSeparator);
    assert body == Join(Rows(results, stringify), RowSeparator);
    html := Page(Join(rows, RowSeparator), totalErr, totalWarn, totalFix);
  }

  // ---- Properties of the page ----

  /** A details row is emitted exactly for a result with details, and the toggle is the inactive
      one exactly when there are none. */
  lemma DetailsRowIffDetails(ds: seq<MessageDetail>)
    ensures DetailsRow(ds) != "" <==> ds != []
    ensures Toggle(ds) == InactiveToggle <==> ds == []
  {
    if ds != [] {
      assert |DetailsRow(ds)| >= |DetailsRowStart| > 0;
      assert |ActiveToggle| != |InactiveToggle|;
    }
  }

  /** The details list is the list items concatenated, one per detail, in detail order. */
  lemma {:induction false} DetailsListInOrder(ds: seq<MessageDetail>, d: MessageDetail)
    ensures Join(ListItems(ds + [d]), "") == Join(ListItems(ds), "") + ListItem(d)
  {
    assert (ds + [d])[..|ds|] == ds;
    assert ListItems(ds + [d]) == ListItems(ds) + [ListItem(d)];
    JoinEmptySnoc(ListItems(ds), ListItem(d));
  }

  /** The details row of one finding is exactly that finding's list item. */
  lemma SingleDetailRow(d: MessageDetail)
    ensures DetailsRow([d]) == DetailsRowStart + ListItem(d) + DetailsRowEnd
  {
    assert ListItems([d]) == [ListItem(d)];
  }

  /** A result without details shows the inactive toggle and nothing after its primary row. */
  lemma NoDetailsRow(r: RuleResult, stringify: Config -> string)
    requires r.details == []
    ensures Row(r, stringify) ==
      "<tr>\n\t\t\t\t<td>" + InactiveToggle + " " + EscapeHtml(r.ruleId) +
      "</td>\n\t\t\t\t<td><code>" + ConfigCell(r.config, stringify) +
      "</code></td>\n\t\t\t\t<td>" + NatToString(r.errors) +
      "</td>\n\t\t\t\t<td>" + NatToString(r.warnings) +
      "</td>\n\t\t\t\t<td>" + NatToString(r.fixable) +
      "</td>\n\t\t\t</tr>\n\t\t\t\t"
  {
  }

  /** The config cell shows "N/A" only for `undefined` and `null`; an unrequested rule's
      `'unknown'` marker is shown as the JSON of that string. */
  lemma ConfigCellCases(config: Config, stringify: Config -> string)
    ensures config.Undefined? || config.Null? ==> ConfigCell(config, stringify) == EscapeHtml(stringify(Str(NotAvailable)))
    ensures !config.Undefined? && !config.Null? ==> ConfigCell(config, stringify) == EscapeHtml(stringify(config))
    ensures ConfigOrNotAvailable(config) == Str(NotAvailable) <==> config.Undefined? || config.Null? || config == Str(NotAvailable)
  {
  }

  /** The rows are joined in input order: one more result adds a separator and its row. */
  lemma RowsInInputOrder(results: seq<RuleResult>, r: RuleResult, stringify: Config -> string)
    requires results != []
    ensures Join(Rows(results + [r], stringify), RowSeparator) == Join(Rows(results, stringify), RowSeparator) + RowSeparator + Row(r, stringify)
  {
    assert (results + [r])[..|results|] == results;
    assert Rows(results + [r], stringify) == Rows(results, stringify) + [Row(r, stringify)];
    JoinSnoc(Rows(results, stringify), Row(r, stringify), RowSeparator);
  }

  /** For no results the body is empty and the three totals are 0. */
  lemma EmptyHtml(stringify: Config -> string)
    ensures Html([], stringify) == Page("", 0, 0, 0)
    ensures NatToString(0) == "0"
  {
  }

  /** The footer holds the sums over all results, whatever their order. */
  lemma FooterTotals(results: seq<RuleResult>, other: seq<RuleResult>, stringify: Config -> string)
    requires multiset(results) == multiset(other)
    ensures Html(results, stringify) == Page(Join(Rows(results, stringify), RowSeparator), SumErrors(other), SumWarnings(other), SumFixable(other))
  {
    SumsPermutation(results, other);
  }
}
