/** Number printing (`String(n)`, template interpolation of a number) and the string order
    that stands for `localeCompare`. */
module Strings {

  /** The decimal digit for 0..9. */
  function DigitChar(d: nat): (c: char)
    requires d < 10
    ensures '0' <= c <= '9'
  {
    "0123456789"[d]
  }

  function DigitValue(c: char): nat
  {
    if '0' <= c <= '9' then (c as int - '0' as int) as nat else 0
  }

  predicate IsDigits(s: string)
  {
    forall i :: 0 <= i < |s| ==> '0' <= s[i] <= '9'
  }

  /** Decimal text of a non-negative integer, as JavaScript prints it: no leading zeros. */
  function NatToString(n: nat): (r: string)
    ensures |r| >= 1 && IsDigits(r)
    ensures r[0] == '0' ==> n == 0
  {
    if n < 10 then [DigitChar(n)] else NatToString(n / 10) + [DigitChar(n % 10)]
  }

  /** Reads decimal digits back. */
  function ParseNat(s: string): nat
  {
    if s == [] then 0 else 10 * ParseNat(s[..|s| - 1]) + DigitValue(s[|s| - 1])
  }

  /** Printing then reading a count gives the count back, so distinct counts print differently. */
  lemma {:induction false} ParseNatToString(n: nat)
    ensures ParseNat(NatToString(n)) == n
  {
    var s := NatToString(n);
    if n < 10 {
      assert s[..|s| - 1] == [];
      assert DigitValue(DigitChar(n)) == n;
    } else {
      ParseNatToString(n / 10);
      assert s[..|s| - 1] == NatToString(n / 10);
      assert DigitValue(DigitChar(n % 10)) == n % 10;
    }
  }

  lemma NatToStringInjective(m: nat, n: nat)
    requires NatToString(m) == NatToString(n)
    ensures m == n
  {
    ParseNatToString(m);
    ParseNatToString(n);
  }

  /** `String(i)` for an integer. */
  function IntToString(i: int): (r: string)
    ensures |r| >= 1 && (i < 0 <==> r[0] == '-')
    ensures var digits := if i < 0 then r[1..] else r;
      IsDigits(digits) && ParseNat(digits) == (if i < 0 then -i else i)
  {
    if i < 0 then
      ParseNatToString(-i);
      assert ("-" + NatToString(-i))[1..] == NatToString(-i);
      "-" + NatToString(-i)
    else
      ParseNatToString(i);
      NatToString(i)
  }

  /** `a` comes strictly before `b` in lexicographic order: a proper prefix, or smaller at
      the first position where they differ. */
  predicate Precedes(a: string, b: string)
  {
    (|a| < |b| && a == b[..|a|]) ||
    (exists i :: 0 <= i < |a| && i < |b| && a[..i] == b[..i] && a[i] < b[i])
  }

  /** Three-way lexicographic comparison by character code: the order that `localeCompare`
      stands for in this model. */
  function LexCompare(a: string, b: string): int
  {
    if a == [] && b == [] then 0
    else if a == [] then -1
    else if b == [] then 1
    else if a[0] < b[0] then -1
    else if a[0] > b[0] then 1
    else LexCompare(a[1..], b[1..])
  }

  /** Dropping an equal first character does not change which string comes first. */
  lemma PrecedesTail(a: string, b: string)
    requires a != [] && b != [] && a[0] == b[0]
    ensures Precedes(a, b) <==> Precedes(a[1..], b[1..])
  {
    if Precedes(a, b) {
      PrecedesDropHead(a, b);
    }
    if Precedes(a[1..], b[1..]) {
      PrecedesAddHead(a, b);
    }
  }

  lemma PrecedesDropHead(a: string, b: string)
    requires a != [] && b != [] && a[0] == b[0]
    requires Precedes(a, b)
    ensures Precedes(a[1..], b[1..])
  {
    var a', b' := a[1..], b[1..];
    if |a| < |b| && a == b[..|a|] {
      assert a' == b'[..|a'|];
    } else {
      var i :| 0 <= i < |a| && i < |b| && a[..i] == b[..i] && a[i] < b[i];
      assert i != 0;
      assert a'[..i - 1] == a[1..i] == b[1..i] == b'[..i - 1];
      assert a'[i - 1] < b'[i - 1];
    }
  }

  lemma PrecedesAddHead(a: string, b: string)
    requires a != [] && b != [] && a[0] == b[0]
    requires Precedes(a[1..], b[1..])
    ensures Precedes(a, b)
  {
    var a', b' := a[1..], b[1..];
    if |a'| < |b'| && a' == b'[..|a'|] {
      assert a == [a[0]] + a';
      assert b[..|a|] == [b[0]] + b'[..|a'|];
    } else {
      var i :| 0 <= i < |a'| && i < |b'| && a'[..i] == b'[..i] && a'[i] < b'[i];
      assert a[..i + 1] == [a[0]] + a'[..i];
      assert b[..i + 1] == [b[0]] + b'[..i];
      assert a[i + 1] < b[i + 1];
    }
  }

  /** A string whose first character is smaller comes first, and not the other way round. */
  lemma PrecedesHead(a: string, b: string)
    requires a != [] && b != [] && a[0] < b[0]
    ensures Precedes(a, b) && !Precedes(b, a)
  {
    assert a[..0] == b[..0];
    if exists i :: 0 <= i < |b| && i < |a| && b[..i] == a[..i] && b[i] < a[i] {
      var i :| 0 <= i < |b| && i < |a| && b[..i] == a[..i] && b[i] < a[i];
      if i > 0 {
        assert b[..i][0] == a[..i][0];
      }
    }
  }

  /** LexCompare is negative, zero or positive exactly as `a` precedes, equals or follows `b`. */
  lemma {:induction false} LexCompareMeaning(a: string, b: string)
    ensures LexCompare(a, b) < 0 <==> Precedes(a, b)
    ensures LexCompare(a, b) == 0 <==> a == b
    ensures LexCompare(a, b) > 0 <==> Precedes(b, a)
    decreases |a|
  {
    if a == [] || b == [] {
      if a == [] && b != [] {
        assert a == b[..0];
      }
      if b == [] && a != [] {
        assert b == a[..0];
      }
    } else if a[0] < b[0] {
      PrecedesHead(a, b);
    } else if a[0] > b[0] {
      PrecedesHead(b, a);
    } else {
      LexCompareMeaning(a[1..], b[1..]);
      PrecedesTail(a, b);
      PrecedesTail(b, a);
      assert a == [a[0]] + a[1..] && b == [b[0]] + b[1..];
    }
  }

  /** Swapping the arguments flips the sign. */
  lemma {:induction false} LexCompareAntisymmetric(a: string, b: string)
    ensures LexCompare(a, b) == -LexCompare(b, a)
    decreases |a|
  {
    if a != [] && b != [] && a[0] == b[0] {
      LexCompareAntisymmetric(a[1..], b[1..]);
    }
  }

  /** "Not after" is transitive. */
  lemma {:induction false} LexCompareTransitive(a: string, b: string, c: string)
    requires LexCompare(a, b) <= 0 && LexCompare(b, c) <= 0
    ensures LexCompare(a, c) <= 0
    decreases |a|
  {
    if a != [] && b != [] && c != [] && a[0] == b[0] == c[0] {
      LexCompareTransitive(a[1..], b[1..], c[1..]);
    }
  }
}
