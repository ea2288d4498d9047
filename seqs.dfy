/** Generic sequence helpers used by the aggregator and the renderers. */
module Seqs {

  /** No element occurs twice. */
  predicate Distinct<T(==)>(s: seq<T>)
  {
    forall i, j :: 0 <= i < j < |s| ==> s[i] != s[j]
  }

  /** `Array.prototype.join`: the parts with `sep` between each neighbouring pair. */
  function Join<T>(parts: seq<seq<T>>, sep: seq<T>): seq<T>
  {
    if |parts| == 0 then []
    else if |parts| == 1 then parts[0]
    else Join(parts[..|parts| - 1], sep) + sep + parts[|parts| - 1]
  }

  /** With an empty separator, one more part is appended as it is. */
  lemma JoinEmptySnoc<T>(parts: seq<seq<T>>, x: seq<T>)
    ensures Join(parts + [x], []) == Join(parts, []) + x
  {
    if parts != [] {
      assert (parts + [x])[..|parts + [x]| - 1] == parts;
    }
  }

  /** With a separator, one more part adds the separator and the part at the end. */
  lemma JoinSnoc<T>(parts: seq<seq<T>>, x: seq<T>, sep: seq<T>)
    requires parts != []
    ensures Join(parts + [x], sep) == Join(parts, sep) + sep + x
  {
    assert (parts + [x])[..|parts + [x]| - 1] == parts;
  }

  /** `Array.prototype.map`: `f` applied to each element, in order. */
  function Map<A, B>(f: A -> B, s: seq<A>): (r: seq<B>)
    ensures |r| == |s|
    ensures forall i :: 0 <= i < |s| ==> r[i] == f(s[i])
  {
    if s == [] then []
    else
      var prev := Map(f, s[..|s| - 1]);
      assert forall i :: 0 <= i < |s| - 1 ==> prev[i] == f(s[i]);
      prev + [f(s[|s| - 1])]
  }

  /** Mapping one more element of a prefix appends its image. */
  lemma MapSnoc<A, B>(f: A -> B, s: seq<A>, i: nat)
    requires i < |s|
    ensures Map(f, s[..i + 1]) == Map(f, s[..i]) + [f(s[i])]
  {
    assert s[..i + 1][..i] == s[..i];
  }

  /** Taking one more element of `b` after `a`. */
  lemma PrefixSnoc<T>(a: seq<T>, b: seq<T>, j: nat)
    requires j < |b|
    ensures a + b[..j + 1] == (a + b[..j]) + [b[j]]
  {
    assert b[..j + 1] == b[..j] + [b[j]];
  }

  /** A prefix one longer is the prefix and the next element. */
  lemma TakeSnoc<T>(s: seq<T>, i: nat)
    requires i < |s|
    ensures s[..i] + [s[i]] == s[..i + 1]
  {
  }
}
