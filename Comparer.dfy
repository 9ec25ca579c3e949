/** The line comparer shared by sorting, bucket keys and validation.

    The model compares lines lexicographically, character by character, after
    folding ASCII upper case to lower case. Two lines are equivalent under the
    comparer exactly when their folded forms are equal, so a dictionary keyed
    "by the comparer" is a map keyed by the folded key. */
module Comparer {

  type Line = string

  /** Case folding of one character (ASCII letters only). */
  function FoldChar(c: char): char {
    if 'A' <= c <= 'Z' then (c as int + 32) as char else c
  }

  /** The canonical representative of a line's comparer class. */
  function Fold(s: Line): string {
    seq(|s|, i requires 0 <= i < |s| => FoldChar(s[i]))
  }

  /** Strict lexicographic order on (folded) strings. */
  function LexLess(a: string, b: string): bool
    decreases |a|
  {
    if a == [] then b != []
    else b != [] && (a[0] < b[0] || (a[0] == b[0] && LexLess(a[1..], b[1..])))
  }

  /** The comparer reports x before y. */
  function Less(x: Line, y: Line): bool {
    LexLess(Fold(x), Fold(y))
  }

  /** The comparer does not put y before x. */
  function Leq(x: Line, y: Line): bool {
    !Less(y, x)
  }

  predicate IsPrefix(p: string, s: string) {
    |p| <= |s| && s[..|p|] == p
  }

  predicate PrefixComparable(a: string, b: string) {
    IsPrefix(a, b) || IsPrefix(b, a)
  }

  /** Sorted under the comparer: every earlier line is at most every later one. */
  ghost predicate Sorted(s: seq<Line>) {
    forall i, j :: 0 <= i < j < |s| ==> Leq(s[i], s[j])
  }

  /** Every neighbour pair is in order. */
  ghost predicate AdjacentSorted(s: seq<Line>) {
    forall m :: 0 < m < |s| ==> Leq(s[m - 1], s[m])
  }

  // ---------------------------------------------------------------------
  // LexLess is a strict total order

  lemma {:induction false} LexAsymmetric(a: string, b: string)
    ensures !(LexLess(a, b) && LexLess(b, a))
    decreases |a|
  {
    if a != [] && b != [] && a[0] == b[0] {
      LexAsymmetric(a[1..], b[1..]);
    }
  }

  lemma {:induction false} LexTrichotomy(a: string, b: string)
    ensures LexLess(a, b) || a == b || LexLess(b, a)
    decreases |a|
  {
    if a != [] && b != [] && a[0] == b[0] {
      LexTrichotomy(a[1..], b[1..]);
      assert a == [a[0]] + a[1..];
      assert b == [b[0]] + b[1..];
    }
  }

  lemma {:induction false} LexTransitive(a: string, b: string, c: string)
    requires LexLess(a, b) && LexLess(b, c)
    ensures LexLess(a, c)
    decreases |a|
  {
    if a != [] && a[0] == b[0] && b[0] == c[0] {
      LexTransitive(a[1..], b[1..], c[1..]);
    }
  }

  /** A proper prefix sorts strictly before the longer string. */
  lemma {:induction false} ProperPrefixIsLess(p: string, s: string)
    requires IsPrefix(p, s) && |p| < |s|
    ensures LexLess(p, s)
    decreases |p|
  {
    if p != [] {
      assert s[1..][..|p| - 1] == s[..|p|][1..];
      ProperPrefixIsLess(p[1..], s[1..]);
    }
  }

  /** A string never sorts strictly before one of its prefixes. */
  lemma PrefixNotAbove(p: string, s: string)
    requires IsPrefix(p, s)
    ensures !LexLess(s, p)
  {
    if |p| < |s| {
      ProperPrefixIsLess(p, s);
      LexAsymmetric(p, s);
    } else {
      assert s == s[..|p|];
      LexAsymmetric(s, s);
    }
  }

  /** Two keys that are not prefixes of one another bound disjoint ranges:
      an extension of the smaller key sorts before every extension of the larger. */
  lemma {:induction false} DivergentExtensions(p: string, q: string, x: string, y: string)
    requires !PrefixComparable(p, q) && LexLess(p, q)
    requires IsPrefix(p, x) && IsPrefix(q, y)
    ensures LexLess(x, y)
    decreases |p|
  {
    assert p != [] && q != [];
    assert x[0] == p[0] && y[0] == q[0];
    if p[0] == q[0] {
      assert x[1..][..|p| - 1] == x[..|p|][1..];
      assert y[1..][..|q| - 1] == y[..|q|][1..];
      DivergentExtensions(p[1..], q[1..], x[1..], y[1..]);
    }
  }

  // ---------------------------------------------------------------------
  // Prefix facts

  lemma PrefixTransitive(a: string, b: string, c: string)
    requires IsPrefix(a, b) && IsPrefix(b, c)
    ensures IsPrefix(a, c)
  {
    assert c[..|a|] == c[..|b|][..|a|];
  }

  lemma PrefixesOfOneString(a: string, b: string, s: string)
    requires IsPrefix(a, s) && IsPrefix(b, s)
    ensures PrefixComparable(a, b)
    ensures |a| == |b| ==> a == b
  {
    if |a| <= |b| {
      assert b[..|a|] == s[..|b|][..|a|];
    } else {
      assert a[..|b|] == s[..|a|][..|b|];
    }
  }

  /** A key incomparable with c stays incomparable with every extension of c. */
  lemma ExtensionKeepsIncomparable(p: string, c: string, k: string)
    requires !PrefixComparable(p, c) && IsPrefix(c, k)
    ensures !PrefixComparable(p, k)
  {
    if IsPrefix(p, k) {
      PrefixesOfOneString(p, c, k);
    } else if IsPrefix(k, p) {
      PrefixTransitive(c, k, p);
    }
  }

  /** Everything below one key is incomparable with a sibling key of the same
      length. */
  lemma BelowSiblingIncomparable(k: string, k2: string, p: string)
    requires IsPrefix(k, p) && |k| == |k2| && k != k2
    ensures !PrefixComparable(p, k2)
  {
    if IsPrefix(k2, p) {
      PrefixesOfOneString(k, k2, p);
    }
  }

  lemma FoldPrefix(s: Line, n: nat)
    requires n <= |s|
    ensures Fold(s[..n]) == Fold(s)[..n]
  {
  }

  // ---------------------------------------------------------------------
  // The comparer on lines is a total preorder

  lemma LessImpliesLeq(x: Line, y: Line)
    requires Less(x, y)
    ensures Leq(x, y)
  {
    LexAsymmetric(Fold(x), Fold(y));
  }

  lemma EquivalentLeq(x: Line, y: Line)
    requires Fold(x) == Fold(y)
    ensures Leq(x, y)
  {
    LexAsymmetric(Fold(x), Fold(x));
  }

  lemma LeqTransitive(x: Line, y: Line, z: Line)
    requires Leq(x, y) && Leq(y, z)
    ensures Leq(x, z)
  {
    var X, Y, Z := Fold(x), Fold(y), Fold(z);
    LexTrichotomy(X, Y);
    LexTrichotomy(Y, Z);
    if LexLess(Z, X) {
      if LexLess(X, Y) {
        LexTransitive(Z, X, Y);
      } else if LexLess(Y, Z) {
        LexTransitive(Y, Z, X);
      }
    }
  }

  /** Checking neighbours is enough: adjacent order gives full order. */
  lemma {:induction false} AdjacentSortedIsSorted(s: seq<Line>)
    requires AdjacentSorted(s)
    ensures Sorted(s)
    decreases |s|
  {
    if |s| > 1 {
      var t := s[..|s| - 1];
      assert AdjacentSorted(t) by {
        forall m | 0 < m < |t| ensures Leq(t[m - 1], t[m]) {
          assert t[m - 1] == s[m - 1] && t[m] == s[m];
        }
      }
      AdjacentSortedIsSorted(t);
      forall i, j | 0 <= i < j < |s| ensures Leq(s[i], s[j]) {
        if j < |s| - 1 {
          assert s[i] == t[i] && s[j] == t[j];
        } else if i < j - 1 {
          assert Leq(t[i], t[j - 1]);
          LeqTransitive(s[i], s[j - 1], s[j]);
        }
      }
    }
  }

  /** Two sorted runs, every line of the first at most every line of the
      second, concatenate to a sorted run. */
  lemma SortedAppend(a: seq<Line>, b: seq<Line>)
    requires Sorted(a) && Sorted(b)
    requires forall x, y :: x in a && y in b ==> Leq(x, y)
    ensures Sorted(a + b)
  {
    var s := a + b;
    forall i, j | 0 <= i < j < |s| ensures Leq(s[i], s[j]) {
      if j < |a| {
        assert s[i] == a[i] && s[j] == a[j];
      } else if i >= |a| {
        assert s[i] == b[i - |a|] && s[j] == b[j - |a|];
      } else {
        assert s[i] in a && s[j] in b;
      }
    }
  }
}
