/** src/lint.ts: the rule filter, the pattern expansion, the file collection and chunked linting
    of `runLint`, and the aggregation loop of `processResults`. The ESLint engine, the glob
    utility and `path` are parameters: `relative(cwd, file)` is `path.relative`, `join(a, b)` is
    `path.join`, `glob` resolves patterns to absolute files, `isIgnored` is `isPathIgnored`, and
    `lintFiles` lints one chunk of files. */
module Lint {
  import opened Types
  import opened Seqs
  import opened Aggregation

  // ---- createRuleFilter ----

  /** `createRuleFilter(rules)`: keeps a rule exactly when it is an own key of `rules`. */
  function CreateRuleFilter(rules: Rules): (filter: string -> bool)
    requires WellFormed(rules)
    ensures forall ruleId :: filter(ruleId) <==> ruleId in rules.keys
  {
    ruleId => ruleId in rules.values
  }

  // ---- Pattern expansion ----

  const DefaultGlob: string := "**/*.{js,mjs,cjs,ts,mts,cts,tsx,jsx}"

  /** A pattern is taken as a glob when it holds one of `* ? [ {`. */
  predicate IsGlob(p: string)
  {
    '*' in p || '?' in p || '[' in p || '{' in p
  }

  function ExpandPattern(p: string, join: (string, string) -> string): string
  {
    if p == "." then DefaultGlob
    else if !IsGlob(p) then join(p, DefaultGlob)
    else p
  }

  /** `patterns.map(...)`: '.' becomes the default source glob, a plain path is taken as a
      directory and gets the default glob joined to it, and a glob is kept as it is. */
  function ExpandPatterns(patterns: seq<string>, join: (string, string) -> string): (r: seq<string>)
    ensures |r| == |patterns|
    ensures forall i :: 0 <= i < |r| && patterns[i] == "." ==> r[i] == DefaultGlob
    ensures forall i :: 0 <= i < |r| && patterns[i] != "." && !IsGlob(patterns[i]) ==> r[i] == join(patterns[i], DefaultGlob)
    ensures forall i :: 0 <= i < |r| && IsGlob(patterns[i]) ==> r[i] == patterns[i]
  {
    if patterns == [] then []
    else [ExpandPattern(patterns[0], join)] + ExpandPatterns(patterns[1..], join)
  }

  // ---- Collecting the files to lint ----

  /** The files `isPathIgnored` does not reject, in their original order. */
  function NotIgnored(files: seq<string>, isIgnored: string -> bool): (r: seq<string>)
    ensures forall f :: f in r <==> f in files && !isIgnored(f)
    ensures |r| <= |files|
  {
    if files == [] then []
    else
      var rest := NotIgnored(files[..|files| - 1], isIgnored);
      var f := files[|files| - 1];
      assert files == files[..|files| - 1] + [f];
      if isIgnored(f) then rest else rest + [f]
  }

  /** The `filesToLint` loop of `runLint`. */
  method CollectFilesToLint(allFiles: seq<string>, isIgnored: string -> bool) returns (filesToLint: seq<string>)
    ensures filesToLint == NotIgnored(allFiles, isIgnored)
  {
    filesToLint := [];
    for i := 0 to |allFiles|
      invariant filesToLint == NotIgnored(allFiles[..i], isIgnored)
    {
      assert allFiles[..i + 1][..i] == allFiles[..i];
      if !isIgnored(allFiles[i]) {
        filesToLint := filesToLint + [allFiles[i]];
      }
    }
    assert allFiles[..|allFiles|] == allFiles;
  }

  // ---- Linting in chunks ----

  const ChunkSize: nat := 10

  function Flatten(chunks: seq<seq<string>>): seq<string>
  {
    if chunks == [] then [] else chunks[0] + Flatten(chunks[1..])
  }

  /** `filesToLint.slice(i, i + size)` for i = 0, size, 2 * size, ...: non-empty chunks of at
      most `size` files that together are the files, in order. */
  function Chunks(files: seq<string>, size: nat): (r: seq<seq<string>>)
    requires size > 0
    ensures Flatten(r) == files
    ensures forall c :: c in r ==> 0 < |c| <= size
    decreases |files|
  {
    if files == [] then []
    else if |files| <= size then [files]
    else
      var rest := Chunks(files[size..], size);
      assert files == files[..size] + files[size..];
      [files[..size]] + rest
  }

  /** The results of linting the chunks one after another. */
  function LintAll(chunks: seq<seq<string>>, lintFiles: seq<string> -> seq<LintResult>): seq<LintResult>
  {
    if chunks == [] then [] else lintFiles(chunks[0]) + LintAll(chunks[1..], lintFiles)
  }

  /** Nothing to lint, no results. */
  lemma LintAllNothing(lintFiles: seq<string> -> seq<LintResult>)
    ensures LintAll(Chunks([], ChunkSize), lintFiles) == []
  {
  }

  /** `filesToLint.slice(from)`, empty once `from` is past the end. */
  function From(files: seq<string>, from: nat): seq<string>
  {
    if from < |files| then files[from..] else []
  }

  /** `filesToLint.slice(from, from + ChunkSize)`. */
  function ChunkAt(files: seq<string>, from: nat): seq<string>
    requires from < |files|
  {
    if from + ChunkSize < |files| then files[from..from + ChunkSize] else files[from..]
  }

  /** Linting what is left from `from` is linting its first chunk and then the rest. */
  lemma LintAllStep(files: seq<string>, from: nat, lintFiles: seq<string> -> seq<LintResult>)
    requires from < |files|
    ensures LintAll(Chunks(From(files, from), ChunkSize), lintFiles)
            == lintFiles(ChunkAt(files, from)) + LintAll(Chunks(From(files, from + ChunkSize), ChunkSize), lintFiles)
  {
    var rest := files[from..];
    if |rest| > ChunkSize {
      assert rest[..ChunkSize] == ChunkAt(files, from);
      assert rest[ChunkSize..] == From(files, from + ChunkSize);
    }
  }

  /** The chunked loop of `runLint`: `allResults.push(...await eslint.lintFiles(chunk))`. */
  method LintInChunks(files: seq<string>, lintFiles: seq<string> -> seq<LintResult>) returns (allResults: seq<LintResult>)
    ensures allResults == LintAll(Chunks(files, ChunkSize), lintFiles)
  {
    allResults := [];
    var i := 0;
    assert From(files, 0) == files;
    while i < |files|
      invariant allResults + LintAll(Chunks(From(files, i), ChunkSize), lintFiles)
                == LintAll(Chunks(files, ChunkSize), lintFiles)
      decreases |files| - i
    {
      var chunk := if i + ChunkSize < |files| then files[i..i + ChunkSize] else files[i..];
      LintAllStep(files, i, lintFiles);
      allResults := allResults + lintFiles(chunk);
      i := i + ChunkSize;
    }
  }

  // ---- processResults ----

  /** The rule map holds, after the messages `occs`, exactly what the reference says. */
  ghost predicate Tracks(rules: Rules, occs: seq<Occurrence>, order: seq<string>, records: map<string, RuleResult>)
  {
    && order == ExpectedOrder(rules, occs)
    && (forall k :: k in records <==> k in order)
    && (forall k :: k in records ==> records[k] == ExpectedRecord(rules, k, occs))
  }

  /** The first loop of `processResults`: one empty record per requested rule, in key order. */
  method SeedRecords(rules: Rules) returns (order: seq<string>, records: map<string, RuleResult>)
    requires WellFormed(rules)
    ensures Tracks(rules, [], order, records)
  {
    order := [];
    records := map[];
    for i := 0 to |rules.keys|
      invariant order == rules.keys[..i]
      invariant forall k :: k in records <==> k in order
      invariant forall k :: k in records ==> records[k] == RuleResult(k, rules.values[k], 0, 0, 0, [])
    {
      var ruleId := rules.keys[i];
      records := records[ruleId := RuleResult(ruleId, rules.values[ruleId], 0, 0, 0, [])];
      order := order + [ruleId];
    }
    assert rules.keys[..|rules.keys|] == rules.keys;
    forall k | k in records ensures records[k] == ExpectedRecord(rules, k, []) {
      SeedRecord(rules, k);
    }
  }

  /** Counting one message into the rule map keeps it in step with the reference: the record
      of its rule (created with the `'unknown'` marker when it is new) gets the counting rule. */
  lemma TracksStep(rules: Rules, occs: seq<Occurrence>, o: Occurrence, order: seq<string>, records: map<string, RuleResult>)
    requires WellFormed(rules)
    requires Tracks(rules, occs, order, records)
    ensures var id := IdOf(o);
      var base := if id in records then records[id] else RuleResult(id, Str(Unknown), 0, 0, 0, []);
      Tracks(rules, occs + [o], if id in records then order else order + [id], records[id := Counted(base, o)])
  {
    var id := IdOf(o);
    var base := if id in records then records[id] else RuleResult(id, Str(Unknown), 0, 0, 0, []);
    var order' := if id in records then order else order + [id];
    var records' := records[id := Counted(base, o)];
    Extend(rules, occs, o);
    if id !in records {
      FreshRecord(rules, occs, id);
    }
    assert order' == ExpectedOrder(rules, occs + [o]);
    forall k ensures k in records' <==> k in order' {
    }
    forall k | k in records' ensures records'[k] == ExpectedRecord(rules, k, occs + [o]) {
    }
  }

  /** Setting a key twice keeps the second value only. */
  lemma SetTwice<K, V>(m: map<K, V>, k: K, a: V, b: V)
    ensures m[k := a][k := b] == m[k := b]
  {
  }

  /** The in-place updates of the record `rr` for one message: `rr.errors++` or
      `rr.warnings++`, `rr.fixable++` when there is a fix, and `rr.details.push(...)`. */
  method CountInto(rr: RuleResult, filePath: string, msg: RawMessage) returns (stats: RuleResult)
    ensures stats == Counted(rr, Occurrence(filePath, msg))
  {
    stats := rr;
    if msg.severity == 2 {
      stats := stats.(errors := stats.errors + 1);
    } else {
      stats := stats.(warnings := stats.warnings + 1);
    }
    if msg.hasFix {
      stats := stats.(fixable := stats.fixable + 1);
    }
    stats := stats.(details := stats.details + [MessageDetail(filePath, msg.line, msg.column, msg.message)]);
  }

  /** The body of the inner loop of `processResults` for one message of the file at
      `filePath` (already made relative): look the rule up, create an `'unknown'`-config record
      when it is new, and count the message into it. */
  method CountMessage(
    rules: Rules, ghost occs: seq<Occurrence>, filePath: string, msg: RawMessage,
    order: seq<string>, records: map<string, RuleResult>)
    returns (order': seq<string>, records': map<string, RuleResult>)
    requires WellFormed(rules)
    requires Tracks(rules, occs, order, records)
    ensures Tracks(rules, occs + [Occurrence(filePath, msg)], order', records')
  {
    ghost var o := Occurrence(filePath, msg);
    TracksStep(rules, occs, o, order, records);
    var ruleId := if msg.ruleId.Some? then msg.ruleId.value else Unknown;
    assert ruleId == IdOf(o);
    order', records' := order, records;
    var rr: RuleResult;
    if ruleId in records {
      rr := records[ruleId];
    } else {
      rr := RuleResult(ruleId, Str(Unknown), 0, 0, 0, []);
      records' := records'[ruleId := rr];
      order' := order' + [ruleId];
    }
    var stats := CountInto(rr, filePath, msg);
    SetTwice(records, ruleId, rr, stats);
    records' := records'[ruleId := stats];
  }

  /** The inner loop of `processResults`: every message of one lint result, in order. */
  method CountFile(
    cwd: string, rules: Rules, ghost done: seq<Occurrence>, res: LintResult, relative: (string, string) -> string,
    order: seq<string>, records: map<string, RuleResult>)
    returns (order': seq<string>, records': map<string, RuleResult>)
    requires WellFormed(rules)
    requires Tracks(rules, done, order, records)
    ensures Tracks(rules, done + FileOccurrences(res, cwd, relative), order', records')
  {
    var filePath := relative(cwd, res.filePath);
    ghost var fileOccs := FileOccurrences(res, cwd, relative);
    assert done + fileOccs[..0] == done;
    order', records' := order, records;
    for j := 0 to |res.messages|
      invariant Tracks(rules, done + fileOccs[..j], order', records')
    {
      PrefixSnoc(done, fileOccs, j);
      assert fileOccs[j] == Occurrence(filePath, res.messages[j]);
      order', records' := CountMessage(rules, done + fileOccs[..j], filePath, res.messages[j], order', records');
    }
    assert fileOccs[..|res.messages|] == fileOccs;
  }

  /** `processResults(cwd, rules, results)`. The `Map` is `order` (its insertion order) with
      `records`; updating the record held in the map is an update of its entry. */
  method ProcessResults(cwd: string, rules: Rules, results: seq<LintResult>, relative: (string, string) -> string)
    returns (out: seq<RuleResult>)
    requires WellFormed(rules)
    ensures out == Report(cwd, rules, results, relative)
  {
    var order, records := SeedRecords(rules);
    for i := 0 to |results|
      invariant Tracks(rules, Occurrences(results[..i], cwd, relative), order, records)
    {
      assert results[..i + 1][..i] == results[..i];
      order, records := CountFile(cwd, rules, Occurrences(results[..i], cwd, relative), results[i], relative, order, records);
    }
    assert results[..|results|] == results;

    ghost var occs := Occurrences(results, cwd, relative);
    var values := seq(|order|, k requires 0 <= k < |order| => records[order[k]]);
    assert values == Records(rules, order, occs);
    out := KeepFindings(values);
  }

  // ---- runLint ----

  /** `runLint` with the engine's calls as parameters: expand the patterns, glob them, drop the
      ignored files, lint the rest in chunks of ten and aggregate. With no file to lint it
      returns [] early, which is what aggregating nothing gives too. */
  method RunLint(
    cwd: string, rules: Rules, patterns: seq<string>,
    join: (string, string) -> string,
    glob: seq<string> -> seq<string>,
    isIgnored: string -> bool,
    lintFiles: seq<string> -> seq<LintResult>,
    relative: (string, string) -> string)
    returns (out: seq<RuleResult>)
    requires WellFormed(rules)
    ensures var files := NotIgnored(glob(ExpandPatterns(patterns, join)), isIgnored);
      out == Report(cwd, rules, LintAll(Chunks(files, ChunkSize), lintFiles), relative)
    ensures NotIgnored(glob(ExpandPatterns(patterns, join)), isIgnored) == [] ==> out == []
  {
    var globPatterns := ExpandPatterns(patterns, join);
    var allFiles := glob(globPatterns);
    var filesToLint := CollectFilesToLint(allFiles, isIgnored);
    if |filesToLint| == 0 {
      assert MessageCount([]) == 0;
      ReportWithoutMessages(cwd, rules, [], relative);
      return [];
    }
    var allResults := LintInChunks(filesToLint, lintFiles);
    out := ProcessResults(cwd, rules, allResults, relative);
  }
}
