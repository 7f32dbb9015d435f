/** Character and string helpers shared by the block stripper and the validator. */
module Strings {

  /** The horizontal whitespace class `[\t ]` of the block pattern. */
  predicate IsSpace(c: char) {
    c == ' ' || c == '\t'
  }

  predicate AllSpace(s: string) {
    forall i :: 0 <= i < |s| ==> IsSpace(s[i])
  }

  /** `t` occurs in `s` at index `i`. */
  predicate StartsWith(s: string, i: nat, t: string) {
    i + |t| <= |s| && s[i..i + |t|] == t
  }

  /** A text occurring at `i` as `a + b` is `a` at `i` followed by `b`. */
  lemma StartsWithSplit(s: string, i: nat, a: string, b: string)
    requires StartsWith(s, i, a + b)
    ensures StartsWith(s, i, a) && StartsWith(s, i + |a|, b)
  {
    assert s[i..i + |a|] == s[i..i + |a + b|][..|a|];
    assert s[i + |a|..i + |a + b|] == s[i..i + |a + b|][|a|..];
  }

  lemma StartsWithIndex(s: string, i: nat, t: string, k: nat)
    requires StartsWith(s, i, t) && k < |t|
    ensures s[i + k] == t[k]
  {
    assert s[i..i + |t|][k] == s[i + k];
  }

  /** A text occurring at `i` as five parts laid end to end has each part at its own index. */
  lemma StartsWithParts(s: string, i: nat, a: string, b: string, c: string, d: string, e: string,
                        j: nat, k: nat, l: nat, m: nat)
    requires StartsWith(s, i, a + b + c + d + e)
    requires j == i + |a| && k == j + |b| && l == k + |c| && m == l + |d|
    ensures StartsWith(s, i, a) && StartsWith(s, j, b) && StartsWith(s, k, c)
    ensures StartsWith(s, l, d) && StartsWith(s, m, e)
  {
    StartsWithSplit(s, i, a + b + c + d, e);
    StartsWithSplit(s, i, a + b + c, d);
    StartsWithSplit(s, i, a + b, c);
    StartsWithSplit(s, i, a, b);
  }

  /** JavaScript's `s.includes(t)`; every string includes the empty string. */
  predicate Contains(s: string, t: string) {
    exists i: nat :: i <= |s| && StartsWith(s, i, t)
  }

  /** The test `/\r|\n/` of `isMultiLine`. */
  predicate HasLineBreak(s: string) {
    exists i :: 0 <= i < |s| && (s[i] == '\r' || s[i] == '\n')
  }

  function CountNewlines(s: string): (n: nat)
    ensures n <= |s|
    ensures n == 0 <==> (forall i :: 0 <= i < |s| ==> s[i] != '\n')
  {
    if s == [] then 0
    else
      var rest := CountNewlines(s[1..]);
      assert forall i :: 1 <= i < |s| ==> s[i] == s[1..][i - 1];
      (if s[0] == '\n' then 1 else 0) + rest
  }

  lemma {:induction false} CountNewlinesAppend(a: string, b: string)
    ensures CountNewlines(a + b) == CountNewlines(a) + CountNewlines(b)
  {
    if a == [] {
      assert a + b == b;
    } else {
      assert (a + b)[1..] == a[1..] + b;
      CountNewlinesAppend(a[1..], b);
    }
  }

  lemma AllSpaceHasNoNewline(s: string)
    requires AllSpace(s)
    ensures CountNewlines(s) == 0
  {
  }

  /** Array.prototype.join with the separator `sep`. */
  function Join(parts: seq<string>, sep: string): (r: string)
    ensures |parts| == 1 ==> r == parts[0]
    ensures |parts| == 0 ==> r == ""
    ensures |parts| > 1 ==> StartsWith(r, 0, parts[0] + sep)
  {
    if |parts| == 0 then ""
    else if |parts| == 1 then parts[0]
    else parts[0] + sep + Join(parts[1..], sep)
  }

  /** Plain lexicographic order on character codes, standing in for `localeCompare(...) < 0`. */
  predicate LexLess(a: string, b: string)
    decreases |a|
  {
    if |a| == 0 then |b| > 0
    else if |b| == 0 then false
    else if a[0] != b[0] then a[0] < b[0]
    else LexLess(a[1..], b[1..])
  }

  lemma {:induction false} LexLessIrreflexive(a: string)
    ensures !LexLess(a, a)
    decreases |a|
  {
    if |a| > 0 { LexLessIrreflexive(a[1..]); }
  }

  lemma {:induction false} LexLessTransitive(a: string, b: string, c: string)
    requires LexLess(a, b) && LexLess(b, c)
    ensures LexLess(a, c)
    decreases |a|
  {
    if |a| > 0 && |b| > 0 && |c| > 0 && a[0] == b[0] && b[0] == c[0] {
      LexLessTransitive(a[1..], b[1..], c[1..]);
    }
  }

  lemma {:induction false} LexLessTotal(a: string, b: string)
    requires a != b
    ensures LexLess(a, b) || LexLess(b, a)
    decreases |a|
  {
    if |a| > 0 && |b| > 0 && a[0] == b[0] {
      assert a == [a[0]] + a[1..] && b == [b[0]] + b[1..];
      LexLessTotal(a[1..], b[1..]);
    }
  }

  /** A proper prefix sorts first: this is why `/blocks/0` precedes `/blocks/0/prefix`. */
  lemma {:induction false} LexLessProperPrefix(a: string, b: string)
    requires |a| < |b| && b[..|a|] == a
    ensures LexLess(a, b)
    decreases |a|
  {
    if |a| > 0 {
      assert b[1..][..|a| - 1] == a[1..];
      LexLessProperPrefix(a[1..], b[1..]);
    }
  }

  /** A slice is its first element followed by the rest. */
  lemma SliceFirst<T>(s: seq<T>, i: nat, j: nat)
    requires i < j <= |s|
    ensures s[i..j] == [s[i]] + s[i + 1..j]
  {
  }

  /** The last element of a concatenation with a non-empty right part, and what comes before it. */
  lemma AppendLast<T>(a: seq<T>, b: seq<T>)
    requires |b| > 0
    ensures (a + b)[..|a + b| - 1] == a + b[..|b| - 1]
    ensures (a + b)[|a + b| - 1] == b[|b| - 1]
  {
  }

  lemma AppendAssociative<T>(a: seq<T>, b: seq<T>, c: seq<T>)
    ensures (a + b) + c == a + (b + c)
  {
  }

  /** A common prefix does not change the order. */
  lemma {:induction false} LexLessCommonPrefix(p: string, x: string, y: string)
    requires LexLess(x, y)
    ensures LexLess(p + x, p + y)
    decreases |p|
  {
    if |p| > 0 {
      LexLessCommonPrefix(p[1..], x, y);
      assert (p + x)[1..] == p[1..] + x && (p + y)[1..] == p[1..] + y;
    } else {
      assert p + x == x && p + y == y;
    }
  }
}
