/** The data shapes shared by the aggregator and the two report renderers (src/types.ts). */
module Types {

  datatype Option<+T> = None | Some(value: T)

  /** A rule's configuration value. In the source it is `unknown`: whatever the rules file
      held for that key (a JSON value), `undefined`, or the sentinel string "unknown" that
      the aggregator stores for rules that were never requested. Numbers are kept integral. */
  datatype Config =
    | Undefined
    | Null
    | Bool(b: bool)
    | Number(n: int)
    | Str(s: string)
    | List(items: seq<Config>)
    | Object(entries: seq<(string, Config)>)

  /** One finding as it is kept in a report: the file path relative to the working directory. */
  datatype MessageDetail = MessageDetail(filePath: string, line: int, column: int, message: string)

  /** The per-rule metrics record. */
  datatype RuleResult = RuleResult(
    ruleId: string,
    config: Config,
    errors: nat,
    warnings: nat,
    fixable: nat,
    details: seq<MessageDetail>)

  /** The `--sort` option: 'rule' or 'severity'. */
  datatype SortOption = ByRule | BySeverity

  /** Sums of the three counters over a sequence of results, taken from the front. */
  function SumErrors(rs: seq<RuleResult>): nat
  {
    if rs == [] then 0 else SumErrors(rs[..|rs| - 1]) + rs[|rs| - 1].errors
  }

  function SumWarnings(rs: seq<RuleResult>): nat
  {
    if rs == [] then 0 else SumWarnings(rs[..|rs| - 1]) + rs[|rs| - 1].warnings
  }

  function SumFixable(rs: seq<RuleResult>): nat
  {
    if rs == [] then 0 else SumFixable(rs[..|rs| - 1]) + rs[|rs| - 1].fixable
  }

  /** The number of findings held in the details of a sequence of results. */
  function SumDetails(rs: seq<RuleResult>): nat
  {
    if rs == [] then 0 else SumDetails(rs[..|rs| - 1]) + |rs[|rs| - 1].details|
  }

  /** Summing one more result of a prefix adds its counts. */
  lemma SumsSnoc(rs: seq<RuleResult>, i: nat)
    requires i < |rs|
    ensures SumErrors(rs[..i + 1]) == SumErrors(rs[..i]) + rs[i].errors
    ensures SumWarnings(rs[..i + 1]) == SumWarnings(rs[..i]) + rs[i].warnings
    ensures SumFixable(rs[..i + 1]) == SumFixable(rs[..i]) + rs[i].fixable
  {
    assert rs[..i + 1][..i] == rs[..i];
  }

  /** Each sum splits over a concatenation. */
  lemma {:induction false} SumsAppend(a: seq<RuleResult>, b: seq<RuleResult>)
    ensures SumErrors(a + b) == SumErrors(a) + SumErrors(b)
    ensures SumWarnings(a + b) == SumWarnings(a) + SumWarnings(b)
    ensures SumFixable(a + b) == SumFixable(a) + SumFixable(b)
    ensures SumDetails(a + b) == SumDetails(a) + SumDetails(b)
    decreases |b|
  {
    if b != [] {
      var b' := b[..|b| - 1];
      assert (a + b)[..|a + b| - 1] == a + b';
      SumsAppend(a, b');
    } else {
      assert a + b == a;
    }
  }

  /** Taking one result out of the middle takes its counts off each sum. */
  lemma SumsRemove(b: seq<RuleResult>, k: nat)
    requires k < |b|
    ensures var rest := b[..k] + b[k + 1..];
      && SumErrors(b) == SumErrors(rest) + b[k].errors
      && SumWarnings(b) == SumWarnings(rest) + b[k].warnings
      && SumFixable(b) == SumFixable(rest) + b[k].fixable
      && SumDetails(b) == SumDetails(rest) + |b[k].details|
  {
    assert b == b[..k] + [b[k]] + b[k + 1..];
    SumsAppend(b[..k], [b[k]]);
    SumsAppend(b[..k] + [b[k]], b[k + 1..]);
    SumsAppend(b[..k], b[k + 1..]);
  }

  /** Taking out the element at `k` takes one occurrence of it out of the multiset. */
  lemma MultisetRemove<T>(b: seq<T>, k: nat)
    requires k < |b|
    ensures multiset(b[..k] + b[k + 1..]) == multiset(b) - multiset{b[k]}
  {
    assert b == b[..k] + [b[k]] + b[k + 1..];
    assert multiset(b) == multiset(b[..k]) + multiset{b[k]} + multiset(b[k + 1..]);
  }

  /** The sums do not depend on the order of the results: a sorted copy has the same totals. */
  lemma {:induction false} SumsPermutation(a: seq<RuleResult>, b: seq<RuleResult>)
    requires multiset(a) == multiset(b)
    ensures SumErrors(a) == SumErrors(b)
    ensures SumWarnings(a) == SumWarnings(b)
    ensures SumFixable(a) == SumFixable(b)
    ensures SumDetails(a) == SumDetails(b)
    decreases |a|
  {
    if a == [] {
      assert |b| == |multiset(b)| == 0;
    } else {
      var x := a[|a| - 1];
      var a' := a[..|a| - 1];
      assert a == a' + [x];
      assert x in multiset(b);
      var k :| 0 <= k < |b| && b[k] == x;
      var b' := b[..k] + b[k + 1..];
      MultisetRemove(b, k);
      assert multiset(a') == multiset(a) - multiset{x};
      SumsPermutation(a', b');
      SumsRemove(b, k);
    }
  }
}
