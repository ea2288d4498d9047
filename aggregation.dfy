/** What `processResults` (src/lint.ts) computes, stated without its loops: for the flattened
    list of messages, which rule records exist, in which order, and what each one counts. */
module Aggregation {
  import opened Types
  import opened Seqs

  /** One message of ESLint's `LintResult.messages`, reduced to the fields the aggregator reads. */
  datatype RawMessage = RawMessage(
    ruleId: Option<string>,
    severity: int,
    line: int,
    column: int,
    message: string,
    hasFix: bool)

  /** ESLint's per-file `LintResult`: the absolute file path and its messages. */
  datatype LintResult = LintResult(filePath: string, messages: seq<RawMessage>)

  /** A `Record<string, unknown>` of requested rules: its own keys in `Object.keys` order and
      the value stored under each. */
  datatype Rules = Rules(keys: seq<string>, values: map<string, Config>)

  /** Every JavaScript object has distinct own keys, and they are exactly the keys with values. */
  ghost predicate WellFormed(rules: Rules)
  {
    Distinct(rules.keys) && (forall k :: k in rules.values <==> k in rules.keys)
  }

  /** The rule id recorded for messages without one, and the config stored for rules that were
      not requested: both are this string. */
  const Unknown: string := "unknown"

  /** `msg.ruleId ?? 'unknown'` */
  function EffectiveRuleId(m: RawMessage): string
  {
    match m.ruleId
    case Some(id) => id
    case None => Unknown
  }

  /** A message together with its file path already made relative to the working directory. */
  datatype Occurrence = Occurrence(filePath: string, msg: RawMessage)

  function IdOf(o: Occurrence): string
  {
    EffectiveRuleId(o.msg)
  }

  /** The detail entry `processResults` appends for one message. */
  function DetailOf(o: Occurrence): MessageDetail
  {
    MessageDetail(o.filePath, o.msg.line, o.msg.column, o.msg.message)
  }

  /** The messages of one file, in order. */
  function FileOccurrences(res: LintResult, cwd: string, relative: (string, string) -> string): (r: seq<Occurrence>)
    ensures |r| == |res.messages|
  {
    seq(|res.messages|, i requires 0 <= i < |res.messages| =>
      Occurrence(relative(cwd, res.filePath), res.messages[i]))
  }

  /** All messages of all files, file by file, in input order. */
  function Occurrences(results: seq<LintResult>, cwd: string, relative: (string, string) -> string): seq<Occurrence>
  {
    if results == [] then []
    else Occurrences(results[..|results| - 1], cwd, relative) + FileOccurrences(results[|results| - 1], cwd, relative)
  }

  /** The number of messages over all files. */
  function MessageCount(results: seq<LintResult>): nat
  {
    if results == [] then 0 else MessageCount(results[..|results| - 1]) + |results[|results| - 1].messages|
  }

  // ---- What one rule record holds after the fold ----

  /** Messages of rule `id` with severity 2. */
  function Errors(id: string, occs: seq<Occurrence>): nat
  {
    if occs == [] then 0
    else
      var o := occs[|occs| - 1];
      Errors(id, occs[..|occs| - 1]) + if IdOf(o) == id && o.msg.severity == 2 then 1 else 0
  }

  /** Messages of rule `id` with any other severity. */
  function Warnings(id: string, occs: seq<Occurrence>): nat
  {
    if occs == [] then 0
    else
      var o := occs[|occs| - 1];
      Warnings(id, occs[..|occs| - 1]) + if IdOf(o) == id && o.msg.severity != 2 then 1 else 0
  }

  /** Messages of rule `id` that carry a fix. */
  function Fixable(id: string, occs: seq<Occurrence>): nat
  {
    if occs == [] then 0
    else
      var o := occs[|occs| - 1];
      Fixable(id, occs[..|occs| - 1]) + if IdOf(o) == id && o.msg.hasFix then 1 else 0
  }

  /** The details of the messages of rule `id`, in message order. */
  function Details(id: string, occs: seq<Occurrence>): seq<MessageDetail>
  {
    if occs == [] then []
    else
      var o := occs[|occs| - 1];
      Details(id, occs[..|occs| - 1]) + if IdOf(o) == id then [DetailOf(o)] else []
  }

  /** `rules[ruleId]` for a requested rule, else the sentinel string 'unknown'. */
  function ConfigFor(rules: Rules, id: string): Config
  {
    if id in rules.values then rules.values[id] else Str(Unknown)
  }

  function ExpectedRecord(rules: Rules, id: string, occs: seq<Occurrence>): RuleResult
  {
    RuleResult(id, ConfigFor(rules, id), Errors(id, occs), Warnings(id, occs), Fixable(id, occs), Details(id, occs))
  }

  // ---- The order of the records ----

  /** Rule ids of `occs` that are not in `known`, each once, in order of first appearance. */
  function NewIds(known: seq<string>, occs: seq<Occurrence>): seq<string>
  {
    if occs == [] then []
    else
      var prev := NewIds(known, occs[..|occs| - 1]);
      var id := IdOf(occs[|occs| - 1]);
      if id in known || id in prev then prev else prev + [id]
  }

  /** The insertion order of the rule map: requested keys, then ids first seen while folding. */
  function ExpectedOrder(rules: Rules, occs: seq<Occurrence>): seq<string>
  {
    rules.keys + NewIds(rules.keys, occs)
  }

  function Records(rules: Rules, ids: seq<string>, occs: seq<Occurrence>): (rs: seq<RuleResult>)
    ensures |rs| == |ids|
  {
    seq(|ids|, i requires 0 <= i < |ids| => ExpectedRecord(rules, ids[i], occs))
  }

  predicate HasFindings(r: RuleResult)
  {
    r.errors > 0 || r.warnings > 0
  }

  /** `.filter((r) => r.errors > 0 || r.warnings > 0)`: exactly the records with findings, in order. */
  function KeepFindings(rs: seq<RuleResult>): (kept: seq<RuleResult>)
    ensures forall r :: r in kept <==> r in rs && HasFindings(r)
    ensures |kept| <= |rs|
  {
    if rs == [] then []
    else
      var prev := KeepFindings(rs[..|rs| - 1]);
      var r := rs[|rs| - 1];
      assert rs == rs[..|rs| - 1] + [r];
      if HasFindings(r) then prev + [r] else prev
  }

  /** The reference result of `processResults(cwd, rules, results)`. */
  function Report(cwd: string, rules: Rules, results: seq<LintResult>, relative: (string, string) -> string): seq<RuleResult>
  {
    var occs := Occurrences(results, cwd, relative);
    KeepFindings(Records(rules, ExpectedOrder(rules, occs), occs))
  }

  function Ids(rs: seq<RuleResult>): (ids: seq<string>)
    ensures |ids| == |rs|
  {
    seq(|rs|, i requires 0 <= i < |rs| => rs[i].ruleId)
  }

  // ======== Lemmas ========

  lemma {:induction false} OccurrencesLength(results: seq<LintResult>, cwd: string, relative: (string, string) -> string)
    ensures |Occurrences(results, cwd, relative)| == MessageCount(results)
  {
    if results != [] {
      OccurrencesLength(results[..|results| - 1], cwd, relative);
    }
  }

  /** The counting rule for one message, applied to a record. */
  function Counted(r: RuleResult, o: Occurrence): RuleResult
  {
    r.(errors := r.errors + (if o.msg.severity == 2 then 1 else 0),
       warnings := r.warnings + (if o.msg.severity != 2 then 1 else 0),
       fixable := r.fixable + (if o.msg.hasFix then 1 else 0),
       details := r.details + [DetailOf(o)])
  }

  /** How the reference changes when one more message is folded in: only the record of that
      message's rule changes, by the counting rule; the id is appended if it is new. */
  lemma Extend(rules: Rules, occs: seq<Occurrence>, o: Occurrence)
    ensures forall k :: k != IdOf(o) ==> ExpectedRecord(rules, k, occs + [o]) == ExpectedRecord(rules, k, occs)
    ensures ExpectedRecord(rules, IdOf(o), occs + [o]) == Counted(ExpectedRecord(rules, IdOf(o), occs), o)
    ensures ExpectedOrder(rules, occs + [o]) ==
      if IdOf(o) in ExpectedOrder(rules, occs) then ExpectedOrder(rules, occs) else ExpectedOrder(rules, occs) + [IdOf(o)]
  {
    assert (occs + [o])[..|occs|] == occs;
  }

  /** Every message's rule id is in the order, and the new ids are distinct and not requested. */
  lemma {:induction false} NewIdsFacts(known: seq<string>, occs: seq<Occurrence>)
    ensures forall j :: 0 <= j < |occs| ==> IdOf(occs[j]) in known || IdOf(occs[j]) in NewIds(known, occs)
    ensures forall x :: x in NewIds(known, occs) ==> x !in known
    ensures forall x :: x in NewIds(known, occs) ==> exists j :: 0 <= j < |occs| && IdOf(occs[j]) == x
    ensures Distinct(NewIds(known, occs))
  {
    if occs != [] {
      var p := occs[..|occs| - 1];
      NewIdsFacts(known, p);
      assert forall j :: 0 <= j < |p| ==> occs[j] == p[j];
    }
  }

  /** New ids appear in the order of their first message: a message of a later new id is always
      preceded by a message of every earlier one. */
  lemma {:induction false} NewIdsFirstSeen(known: seq<string>, occs: seq<Occurrence>, a: nat, b: nat, j: nat)
    requires a < b < |NewIds(known, occs)|
    requires j < |occs| && IdOf(occs[j]) == NewIds(known, occs)[b]
    ensures exists i :: 0 <= i < j && IdOf(occs[i]) == NewIds(known, occs)[a]
  {
    var p := occs[..|occs| - 1];
    var o := occs[|occs| - 1];
    var prev := NewIds(known, p);
    var ids := NewIds(known, occs);
    NewIdsFacts(known, p);
    assert forall k :: 0 <= k < |p| ==> occs[k] == p[k];
    if b < |prev| {
      assert ids[b] == prev[b] && ids[a] == prev[a];
      if j < |p| {
        assert IdOf(p[j]) == prev[b];
        NewIdsFirstSeen(known, p, a, b, j);
        var i :| 0 <= i < j && IdOf(p[i]) == prev[a];
        assert IdOf(occs[i]) == ids[a];
      } else {
        assert prev[b] in prev;
        var j' :| 0 <= j' < |p| && IdOf(p[j']) == prev[b];
        NewIdsFirstSeen(known, p, a, b, j');
        var i :| 0 <= i < j' && IdOf(p[i]) == prev[a];
        assert IdOf(occs[i]) == ids[a];
      }
    } else {
      assert ids == prev + [IdOf(o)] && ids[b] == IdOf(o) && ids[a] == prev[a];
      assert prev[a] in prev;
      var i :| 0 <= i < |p| && IdOf(p[i]) == prev[a];
      if j < |p| {
        assert false;
      }
      assert IdOf(occs[i]) == ids[a];
    }
  }

  /** A rule never mentioned by the messages has empty counts. */
  lemma {:induction false} AbsentIdCountsNothing(id: string, occs: seq<Occurrence>)
    requires forall j :: 0 <= j < |occs| ==> IdOf(occs[j]) != id
    ensures Errors(id, occs) == 0 && Warnings(id, occs) == 0 && Fixable(id, occs) == 0 && Details(id, occs) == []
  {
    if occs != [] {
      var p := occs[..|occs| - 1];
      assert forall j :: 0 <= j < |p| ==> occs[j] == p[j];
      AbsentIdCountsNothing(id, p);
    }
  }

  /** The state of the rule map before any message: the requested rules with empty counts. */
  lemma SeedRecord(rules: Rules, id: string)
    requires id in rules.values
    ensures ExpectedRecord(rules, id, []) == RuleResult(id, rules.values[id], 0, 0, 0, [])
  {
  }

  /** A rule id that is not yet in the order gets a fresh record with config 'unknown',
      as `processResults` creates it. */
  lemma FreshRecord(rules: Rules, occs: seq<Occurrence>, id: string)
    requires WellFormed(rules)
    requires id !in ExpectedOrder(rules, occs)
    ensures ExpectedRecord(rules, id, occs) == RuleResult(id, Str(Unknown), 0, 0, 0, [])
  {
    NewIdsFacts(rules.keys, occs);
    AbsentIdCountsNothing(id, occs);
  }

  /** Counts and details agree: one detail per counted message, and a fix only on a counted one. */
  lemma {:induction false} CountsAgree(id: string, occs: seq<Occurrence>)
    ensures Errors(id, occs) + Warnings(id, occs) == |Details(id, occs)|
    ensures Fixable(id, occs) <= |Details(id, occs)|
  {
    if occs != [] {
      CountsAgree(id, occs[..|occs| - 1]);
    }
  }

  lemma {:induction false} KeepFindingsSums(rs: seq<RuleResult>)
    ensures SumErrors(KeepFindings(rs)) == SumErrors(rs)
    ensures SumWarnings(KeepFindings(rs)) == SumWarnings(rs)
  {
    if rs != [] {
      var p := rs[..|rs| - 1];
      var x := rs[|rs| - 1];
      KeepFindingsSums(p);
      if HasFindings(x) {
        var k := KeepFindings(p) + [x];
        assert KeepFindings(rs) == k;
        assert k[..|k| - 1] == KeepFindings(p) && k[|k| - 1] == x;
      } else {
        assert KeepFindings(rs) == KeepFindings(p);
        assert x.errors == 0 && x.warnings == 0;
      }
    }
  }

  /** Folding one more message adds one finding to the sum over any distinct list of ids that
      contains its rule id, and none otherwise. */
  lemma {:induction false} RecordsSumStep(rules: Rules, ids: seq<string>, occs: seq<Occurrence>, o: Occurrence)
    requires Distinct(ids)
    ensures SumErrors(Records(rules, ids, occs + [o])) + SumWarnings(Records(rules, ids, occs + [o])) ==
            SumErrors(Records(rules, ids, occs)) + SumWarnings(Records(rules, ids, occs)) + (if IdOf(o) in ids then 1 else 0)
  {
    Extend(rules, occs, o);
    if ids != [] {
      var p := ids[..|ids| - 1];
      var k := ids[|ids| - 1];
      assert Records(rules, ids, occs + [o])[..|ids| - 1] == Records(rules, p, occs + [o]);
      assert Records(rules, ids, occs)[..|ids| - 1] == Records(rules, p, occs);
      RecordsSumStep(rules, p, occs, o);
      assert IdOf(o) in ids <==> IdOf(o) in p || IdOf(o) == k;
      assert IdOf(o) == k ==> IdOf(o) !in p;
    }
  }

  /** Over a distinct list of ids that covers every message, the findings add up to the number
      of messages. */
  lemma {:induction false} RecordsSumTotal(rules: Rules, ids: seq<string>, occs: seq<Occurrence>)
    requires Distinct(ids)
    requires forall j :: 0 <= j < |occs| ==> IdOf(occs[j]) in ids
    ensures SumErrors(Records(rules, ids, occs)) + SumWarnings(Records(rules, ids, occs)) == |occs|
  {
    if occs == [] {
      RecordsSumEmpty(rules, ids);
    } else {
      var p := occs[..|occs| - 1];
      assert forall j :: 0 <= j < |p| ==> occs[j] == p[j];
      RecordsSumTotal(rules, ids, p);
      assert occs == p + [occs[|occs| - 1]];
      RecordsSumStep(rules, ids, p, occs[|occs| - 1]);
    }
  }

  lemma {:induction false} RecordsSumEmpty(rules: Rules, ids: seq<string>)
    ensures SumErrors(Records(rules, ids, [])) == 0 && SumWarnings(Records(rules, ids, [])) == 0
  {
    if ids != [] {
      var p := ids[..|ids| - 1];
      assert Records(rules, ids, [])[..|ids| - 1] == Records(rules, p, []);
      RecordsSumEmpty(rules, p);
    }
  }

  /** The order of the rule map never lists an id twice. */
  lemma ExpectedOrderDistinct(rules: Rules, occs: seq<Occurrence>)
    requires WellFormed(rules)
    ensures Distinct(ExpectedOrder(rules, occs))
    ensures forall j :: 0 <= j < |occs| ==> IdOf(occs[j]) in ExpectedOrder(rules, occs)
  {
    NewIdsFacts(rules.keys, occs);
    var ks, ns := rules.keys, NewIds(rules.keys, occs);
    var order := ks + ns;
    forall i, j | 0 <= i < j < |order| ensures order[i] != order[j] {
      if j < |ks| {
      } else if i >= |ks| {
        assert order[i] == ns[i - |ks|] && order[j] == ns[j - |ks|];
      } else {
        assert order[j] in ns;
      }
    }
  }

  /** Keeping the records with findings keeps their ids distinct. */
  lemma {:induction false} KeepFindingsDistinct(rs: seq<RuleResult>)
    requires Distinct(Ids(rs))
    ensures Distinct(Ids(KeepFindings(rs)))
  {
    if rs != [] {
      var p := rs[..|rs| - 1];
      var r := rs[|rs| - 1];
      assert Ids(p) == Ids(rs)[..|rs| - 1];
      KeepFindingsDistinct(p);
      if HasFindings(r) {
        var kp := KeepFindings(p);
        var k := kp + [r];
        forall i, j | 0 <= i < j < |k| ensures k[i].ruleId != k[j].ruleId {
          if j == |kp| {
            assert k[i] in p;
            var m :| 0 <= m < |p| && p[m] == k[i];
            assert Ids(rs)[m] == k[i].ruleId && Ids(rs)[|rs| - 1] == r.ruleId;
          } else {
            assert Ids(kp)[i] == k[i].ruleId && Ids(kp)[j] == k[j].ruleId;
          }
        }
      }
    }
  }

  // ---- The properties promised of `processResults` ----

  /** Every reported record has findings, its counts agree with its details, and it holds exactly
      the counts of its rule's messages: severity 2 as errors, any other severity as warnings,
      a fix as fixable, with its config from the requested rules or else 'unknown'. */
  lemma ReportRecords(cwd: string, rules: Rules, results: seq<LintResult>, relative: (string, string) -> string)
    ensures var occs := Occurrences(results, cwd, relative);
      forall r :: r in Report(cwd, rules, results, relative) ==>
        && HasFindings(r)
        && r.ruleId in ExpectedOrder(rules, occs)
        && r == ExpectedRecord(rules, r.ruleId, occs)
        && r.errors + r.warnings == |r.details|
        && r.fixable <= |r.details|
        && r.config == (if r.ruleId in rules.values then rules.values[r.ruleId] else Str(Unknown))
  {
    var occs := Occurrences(results, cwd, relative);
    var rs := Records(rules, ExpectedOrder(rules, occs), occs);
    forall r | r in Report(cwd, rules, results, relative)
      ensures r.ruleId in ExpectedOrder(rules, occs) && r == ExpectedRecord(rules, r.ruleId, occs)
      ensures r.errors + r.warnings == |r.details| && r.fixable <= |r.details|
    {
      assert r in rs;
      var i :| 0 <= i < |rs| && rs[i] == r;
      CountsAgree(r.ruleId, occs);
    }
  }

  /** Conservation: the errors and warnings of the report add up to the number of messages. */
  lemma ReportConservesMessages(cwd: string, rules: Rules, results: seq<LintResult>, relative: (string, string) -> string)
    requires WellFormed(rules)
    ensures SumErrors(Report(cwd, rules, results, relative)) + SumWarnings(Report(cwd, rules, results, relative))
            == MessageCount(results)
  {
    var occs := Occurrences(results, cwd, relative);
    var order := ExpectedOrder(rules, occs);
    ExpectedOrderDistinct(rules, occs);
    RecordsSumTotal(rules, order, occs);
    KeepFindingsSums(Records(rules, order, occs));
    OccurrencesLength(results, cwd, relative);
  }

  /** No two reported records share a rule id. */
  lemma ReportDistinctIds(cwd: string, rules: Rules, results: seq<LintResult>, relative: (string, string) -> string)
    requires WellFormed(rules)
    ensures Distinct(Ids(Report(cwd, rules, results, relative)))
  {
    var occs := Occurrences(results, cwd, relative);
    var order := ExpectedOrder(rules, occs);
    ExpectedOrderDistinct(rules, occs);
    var rs := Records(rules, order, occs);
    assert Ids(rs) == order;
    KeepFindingsDistinct(rs);
  }

  // ---- The order of the report ----

  /** `.filter` works piece by piece: it keeps the order and the multiplicity of what it keeps. */
  lemma {:induction false} KeepFindingsAppend(a: seq<RuleResult>, b: seq<RuleResult>)
    ensures KeepFindings(a + b) == KeepFindings(a) + KeepFindings(b)
    decreases |b|
  {
    if b == [] {
      assert a + b == a;
    } else {
      var b' := b[..|b| - 1];
      var y := b[|b| - 1];
      assert (a + b)[..|a + b| - 1] == a + b';
      assert (a + b)[|a + b| - 1] == y;
      KeepFindingsAppend(a, b');
    }
  }

  /** The records of two id lists one after the other. */
  lemma RecordsAppend(rules: Rules, a: seq<string>, b: seq<string>, occs: seq<Occurrence>)
    ensures Records(rules, a + b, occs) == Records(rules, a, occs) + Records(rules, b, occs)
  {
    var l := Records(rules, a + b, occs);
    var r := Records(rules, a, occs) + Records(rules, b, occs);
    forall i | 0 <= i < |l| ensures l[i] == r[i] {
      if i < |a| {
        assert (a + b)[i] == a[i];
      } else {
        assert (a + b)[i] == b[i - |a|];
      }
    }
  }

  /** The report lists the requested rules with findings in `Object.keys` order, followed by
      the rules first met while folding, with findings, in the order they were first met. */
  lemma ReportOrder(cwd: string, rules: Rules, results: seq<LintResult>, relative: (string, string) -> string)
    ensures var occs := Occurrences(results, cwd, relative);
      Report(cwd, rules, results, relative) ==
        KeepFindings(Records(rules, rules.keys, occs)) + KeepFindings(Records(rules, NewIds(rules.keys, occs), occs))
  {
    var occs := Occurrences(results, cwd, relative);
    RecordsAppend(rules, rules.keys, NewIds(rules.keys, occs), occs);
    KeepFindingsAppend(Records(rules, rules.keys, occs), Records(rules, NewIds(rules.keys, occs), occs));
  }

  /** A record of `Records` carries one of the given ids. */
  lemma RecordIds(rules: Rules, ids: seq<string>, occs: seq<Occurrence>, r: RuleResult)
    requires r in Records(rules, ids, occs)
    ensures r.ruleId in ids
  {
    var k :| 0 <= k < |ids| && Records(rules, ids, occs)[k] == r;
  }

  /** In the requested records followed by the new ones, no requested rule comes after a
      rule that was not requested. */
  lemma RequestedBeforeNew(rules: Rules, occs: seq<Occurrence>, i: nat, j: nat)
    requires var rs := KeepFindings(Records(rules, rules.keys, occs)) + KeepFindings(Records(rules, NewIds(rules.keys, occs), occs));
      i < j < |rs| && rs[j].ruleId in rules.keys
    ensures var rs := KeepFindings(Records(rules, rules.keys, occs)) + KeepFindings(Records(rules, NewIds(rules.keys, occs), occs));
      rs[i].ruleId in rules.keys
  {
    var requested := KeepFindings(Records(rules, rules.keys, occs));
    var discovered := KeepFindings(Records(rules, NewIds(rules.keys, occs), occs));
    forall r | r in requested ensures r.ruleId in rules.keys {
      RecordIds(rules, rules.keys, occs, r);
    }
    forall r | r in discovered ensures r.ruleId !in rules.keys {
      RecordIds(rules, NewIds(rules.keys, occs), occs, r);
      NewIdsFacts(rules.keys, occs);
    }
    KeyedBeforeUnkeyed(requested, discovered, rules.keys, i, j);
  }

  /** When every record of `a` has a key of `keys` and none of `b` has, a keyed record of
      `a + b` has only keyed records before it. */
  lemma KeyedBeforeUnkeyed(a: seq<RuleResult>, b: seq<RuleResult>, keys: seq<string>, i: nat, j: nat)
    requires forall r :: r in a ==> r.ruleId in keys
    requires forall r :: r in b ==> r.ruleId !in keys
    requires i < j < |a + b| && (a + b)[j].ruleId in keys
    ensures (a + b)[i].ruleId in keys
  {
    forall k | |a| <= k < |a + b|
      ensures (a + b)[k].ruleId !in keys
    {
      assert (a + b)[k] == b[k - |a|];
    }
    assert (a + b)[i] == a[i];
  }

  /** No reported rule that was requested comes after one that was not. */
  lemma ReportRequestedFirst(cwd: string, rules: Rules, results: seq<LintResult>, relative: (string, string) -> string, i: nat, j: nat)
    requires i < j < |Report(cwd, rules, results, relative)|
    requires Report(cwd, rules, results, relative)[j].ruleId in rules.keys
    ensures Report(cwd, rules, results, relative)[i].ruleId in rules.keys
  {
    ReportOrder(cwd, rules, results, relative);
    RequestedBeforeNew(rules, Occurrences(results, cwd, relative), i, j);
  }

  /** Without any message nothing is reported, however many rules were requested. */
  lemma ReportWithoutMessages(cwd: string, rules: Rules, results: seq<LintResult>, relative: (string, string) -> string)
    requires WellFormed(rules)
    requires MessageCount(results) == 0
    ensures Report(cwd, rules, results, relative) == []
  {
    var rep := Report(cwd, rules, results, relative);
    ReportConservesMessages(cwd, rules, results, relative);
    NoFindingsMeansEmpty(rep);
  }

  lemma FindingsAddUp(rs: seq<RuleResult>)
    requires forall r :: r in rs ==> HasFindings(r)
    ensures rs != [] ==> SumErrors(rs) + SumWarnings(rs) > 0
  {
    if rs != [] {
      assert rs[|rs| - 1] in rs;
    }
  }

  lemma NoFindingsMeansEmpty(rs: seq<RuleResult>)
    requires forall r :: r in rs ==> HasFindings(r)
    requires SumErrors(rs) + SumWarnings(rs) == 0
    ensures rs == []
  {
    FindingsAddUp(rs);
  }

  /** A rule that has at least one message is reported. */
  lemma ReportContainsEveryMessagedRule(cwd: string, rules: Rules, results: seq<LintResult>, relative: (string, string) -> string, j: nat)
    requires WellFormed(rules)
    requires j < |Occurrences(results, cwd, relative)|
    ensures var occs := Occurrences(results, cwd, relative);
      ExpectedRecord(rules, IdOf(occs[j]), occs) in Report(cwd, rules, results, relative)
  {
    var occs := Occurrences(results, cwd, relative);
    var id := IdOf(occs[j]);
    ExpectedOrderDistinct(rules, occs);
    var order := ExpectedOrder(rules, occs);
    var i :| 0 <= i < |order| && order[i] == id;
    var rs := Records(rules, order, occs);
    assert rs[i] == ExpectedRecord(rules, id, occs);
    MentionedIdCounts(id, occs, j);
  }

  lemma {:induction false} MentionedIdCounts(id: string, occs: seq<Occurrence>, j: nat)
    requires j < |occs| && IdOf(occs[j]) == id
    ensures Errors(id, occs) + Warnings(id, occs) > 0
  {
    var p := occs[..|occs| - 1];
    if j < |p| {
      assert p[j] == occs[j];
      MentionedIdCounts(id, p, j);
    }
  }

  /** A requested rule literally named 'unknown' keeps its configuration and receives the
      messages that have no rule id. */
  lemma RequestedUnknownAbsorbsMissingIds(cwd: string, rules: Rules, results: seq<LintResult>, relative: (string, string) -> string, j: nat)
    requires WellFormed(rules)
    requires Unknown in rules.keys
    requires j < |Occurrences(results, cwd, relative)|
    requires Occurrences(results, cwd, relative)[j].msg.ruleId == None
    ensures exists r :: (r in Report(cwd, rules, results, relative) && r.ruleId == Unknown &&
      r.config == rules.values[Unknown] && DetailOf(Occurrences(results, cwd, relative)[j]) in r.details)
  {
    var occs := Occurrences(results, cwd, relative);
    ReportContainsEveryMessagedRule(cwd, rules, results, relative, j);
    DetailListed(Unknown, occs, j);
  }

  lemma {:induction false} DetailListed(id: string, occs: seq<Occurrence>, j: nat)
    requires j < |occs| && IdOf(occs[j]) == id
    ensures DetailOf(occs[j]) in Details(id, occs)
  {
    var p := occs[..|occs| - 1];
    if j < |p| {
      assert p[j] == occs[j];
      DetailListed(id, p, j);
    }
  }

  lemma SingleFileOccurrences(cwd: string, filePath: string, m: RawMessage, relative: (string, string) -> string)
    ensures Occurrences([LintResult(filePath, [m])], cwd, relative) == [Occurrence(relative(cwd, filePath), m)]
  {
    var results := [LintResult(filePath, [m])];
    assert results[..0] == [];
    assert FileOccurrences(results[0], cwd, relative) == [Occurrence(relative(cwd, filePath), m)];
  }

  lemma SingleOccurrenceRecord(rules: Rules, o: Occurrence)
    ensures ExpectedRecord(rules, IdOf(o), [o]) ==
      RuleResult(IdOf(o), ConfigFor(rules, IdOf(o)),
                 if o.msg.severity == 2 then 1 else 0,
                 if o.msg.severity != 2 then 1 else 0,
                 if o.msg.hasFix then 1 else 0,
                 [DetailOf(o)])
  {
    assert [o][..0] == [];
    assert Errors(IdOf(o), [o]) == if o.msg.severity == 2 then 1 else 0;
    assert Warnings(IdOf(o), [o]) == if o.msg.severity != 2 then 1 else 0;
    assert Fixable(IdOf(o), [o]) == if o.msg.hasFix then 1 else 0;
    assert Details(IdOf(o), [o]) == [DetailOf(o)];
  }

  lemma {:induction false} KeepFindingsNone(rs: seq<RuleResult>)
    requires forall i :: 0 <= i < |rs| ==> !HasFindings(rs[i])
    ensures KeepFindings(rs) == []
  {
    if rs != [] {
      KeepFindingsNone(rs[..|rs| - 1]);
    }
  }

  /** When exactly one record has findings, the filter keeps just that one. */
  lemma {:induction false} KeepFindingsSingle(rs: seq<RuleResult>, k: nat)
    requires k < |rs| && HasFindings(rs[k])
    requires forall i :: 0 <= i < |rs| && i != k ==> !HasFindings(rs[i])
    ensures KeepFindings(rs) == [rs[k]]
  {
    var p := rs[..|rs| - 1];
    if k == |rs| - 1 {
      KeepFindingsNone(p);
    } else {
      KeepFindingsSingle(p, k);
    }
  }

  /** The counting rule for one message: a single message yields a single record. */
  lemma SingleMessage(cwd: string, rules: Rules, filePath: string, m: RawMessage, relative: (string, string) -> string)
    requires WellFormed(rules)
    ensures var id := EffectiveRuleId(m);
      Report(cwd, rules, [LintResult(filePath, [m])], relative) ==
        [RuleResult(id, ConfigFor(rules, id),
                    if m.severity == 2 then 1 else 0,
                    if m.severity != 2 then 1 else 0,
                    if m.hasFix then 1 else 0,
                    [MessageDetail(relative(cwd, filePath), m.line, m.column, m.message)])]
  {
    var results := [LintResult(filePath, [m])];
    var o := Occurrence(relative(cwd, filePath), m);
    SingleFileOccurrences(cwd, filePath, m, relative);
    SingleOccurrenceRecord(rules, o);
    var occs := [o];
    var id := IdOf(o);
    var order := ExpectedOrder(rules, occs);
    ExpectedOrderDistinct(rules, occs);
    var k :| 0 <= k < |order| && order[k] == id;
    var rs := Records(rules, order, occs);
    forall i | 0 <= i < |rs| && i != k ensures !HasFindings(rs[i]) {
      AbsentIdCountsNothing(order[i], occs);
    }
    KeepFindingsSingle(rs, k);
  }
}
