/** The in-memory sorter: all lines of a part are loaded into a list, the list
    is sorted with the comparer, and the lines are written back.

    The list sort is modelled as insertion sort by neighbour swaps, specified
    by the functional insertion sort below. */
module InMemorySort {
  import opened Comparer

  /** x inserted into s after every line the comparer does not put after x. */
  function Insert(s: seq<Line>, x: Line): (r: seq<Line>)
    ensures |r| == |s| + 1
  {
    if s == [] then [x]
    else if Less(x, s[|s| - 1]) then Insert(s[..|s| - 1], x) + [s[|s| - 1]]
    else s + [x]
  }

  /** The lines inserted one by one, in order, into an initially empty run. */
  function InsertionSort(s: seq<Line>): (r: seq<Line>)
    ensures |r| == |s|
  {
    if s == [] then [] else Insert(InsertionSort(s[..|s| - 1]), s[|s| - 1])
  }

  lemma {:induction false} InsertMultiset(s: seq<Line>, x: Line)
    ensures multiset(Insert(s, x)) == multiset(s) + multiset{x}
    decreases |s|
  {
    if s != [] && Less(x, s[|s| - 1]) {
      var pre, last := s[..|s| - 1], s[|s| - 1];
      assert s == pre + [last];
      InsertMultiset(pre, x);
    }
  }

  /** Inserting into a sorted run keeps it sorted. */
  lemma {:induction false} InsertSorted(s: seq<Line>, x: Line)
    requires Sorted(s)
    ensures Sorted(Insert(s, x))
    decreases |s|
  {
    if s != [] {
      var pre, last := s[..|s| - 1], s[|s| - 1];
      assert s == pre + [last];
      if Less(x, last) {
        assert Sorted(pre);
        InsertSorted(pre, x);
        InsertMultiset(pre, x);
        forall y, z | y in Insert(pre, x) && z in [last] ensures Leq(y, z) {
          assert y in multiset(Insert(pre, x));
          if y != x {
            assert y in pre;
          } else {
            LessImpliesLeq(x, last);
          }
        }
        SortedAppend(Insert(pre, x), [last]);
      } else {
        forall y, z | y in s && z in [x] ensures Leq(y, z) {
          var k :| 0 <= k < |s| && s[k] == y;
          if k < |s| - 1 {
            LeqTransitive(y, last, x);
          }
        }
        SortedAppend(s, [x]);
      }
    }
  }

  /** The functional sort orders the lines under the comparer... */
  lemma {:induction false} InsertionSortSorted(s: seq<Line>)
    ensures Sorted(InsertionSort(s))
    decreases |s|
  {
    if s != [] {
      InsertionSortSorted(s[..|s| - 1]);
      InsertSorted(InsertionSort(s[..|s| - 1]), s[|s| - 1]);
    }
  }

  /** ... and neither loses nor duplicates a line. */
  lemma {:induction false} InsertionSortMultiset(s: seq<Line>)
    ensures multiset(InsertionSort(s)) == multiset(s)
    decreases |s|
  {
    if s != [] {
      var pre, last := s[..|s| - 1], s[|s| - 1];
      assert s == pre + [last];
      InsertionSortMultiset(pre);
      InsertMultiset(InsertionSort(pre), last);
    }
  }

  /** Insert walks back over the lines that x goes before. */
  lemma InsertBefore(p: seq<Line>, j: nat, x: Line)
    requires 0 < j <= |p| && Less(x, p[j - 1])
    ensures Insert(p[..j], x) == Insert(p[..j - 1], x) + [p[j - 1]]
  {
    assert p[..j][..j - 1] == p[..j - 1];
  }

  /** The walk back moves one place further left. */
  lemma InsertWalk(p: seq<Line>, j: nat, x: Line)
    requires 0 < j <= |p| && Less(x, p[j - 1])
    requires Insert(p, x) == Insert(p[..j], x) + p[j..]
    ensures Insert(p, x) == Insert(p[..j - 1], x) + p[j - 1..]
  {
    InsertBefore(p, j, x);
    assert p[j - 1..] == [p[j - 1]] + p[j..] by {
      assert p[j - 1..][1..] == p[j..];
    }
  }

  lemma InsertStops(p: seq<Line>, j: nat, x: Line)
    requires j <= |p| && (j == 0 || !Less(x, p[j - 1]))
    ensures Insert(p[..j], x) == p[..j] + [x]
  {
  }

  /** One swap moves x one place to the left. */
  lemma SwapStep(p: seq<Line>, x: Line, rest: seq<Line>, j: nat, i: nat)
    requires 0 < j <= i == |p|
    ensures (p[..j] + [x] + p[j..] + rest)[j - 1 := x][j := p[j - 1]]
         == p[..j - 1] + [x] + p[j - 1..] + rest
  {
    var s := (p[..j] + [x] + p[j..] + rest)[j - 1 := x][j := p[j - 1]];
    var t := p[..j - 1] + [x] + p[j - 1..] + rest;
    assert |s| == |t|;
    forall k | 0 <= k < |s| ensures s[k] == t[k] {
      if k < j - 1 {
      } else if k == j - 1 {
      } else if k == j {
      } else if k <= i {
        assert s[k] == p[k - 1];
      } else {
        assert s[k] == rest[k - i - 1];
      }
    }
  }

  method Swap(a: array<Line>, i: nat, j: nat)
    requires i < a.Length && j < a.Length
    modifies a
    ensures a[..] == old(a[..])[i := old(a[j])][j := old(a[i])]
  {
    a[i], a[j] := a[j], a[i];
  }

  /** Moves a[i] left past every neighbour the comparer puts after it: the
      first i + 1 elements become the insertion of a[i] into the first i. */
  method InsertAt(a: array<Line>, i: nat)
    requires 0 < i < a.Length
    modifies a
    ensures a[..] == Insert(old(a[..i]), old(a[i])) + old(a[i + 1..])
  {
    ghost var p, x, rest := a[..i], a[i], a[i + 1..];
    assert a[..] == p[..i] + [x] + p[i..] + rest;
    assert p[..i] == p && p[i..] == [];
    var j := i;
    while j > 0 && Less(a[j], a[j - 1])
      invariant 0 <= j <= i
      invariant a[..] == p[..j] + [x] + p[j..] + rest
      invariant Insert(p, x) == Insert(p[..j], x) + p[j..]
    {
      assert a[j] == x && a[j - 1] == p[j - 1];
      InsertWalk(p, j, x);
      Swap(a, j - 1, j);
      SwapStep(p, x, rest, j, i);
      j := j - 1;
    }
    assert j == 0 || (a[j] == x && a[j - 1] == p[j - 1]);
    InsertStops(p, j, x);
  }

  lemma InsertionSortStep(s: seq<Line>, i: nat)
    requires i < |s|
    ensures InsertionSort(s[..i + 1]) == Insert(InsertionSort(s[..i]), s[i])
  {
    assert s[..i + 1][..i] == s[..i];
  }

  lemma SplitAfterSorted(a: seq<Line>, s: seq<Line>, t: seq<Line>, i: nat)
    requires a == s + t && |s| == i < |a|
    ensures a[..i] == s && a[i] == t[0] && a[i + 1..] == t[1..]
  {
  }

  /** One step of the sort: inserting the next element into the sorted
      prefix extends the sorted prefix by one. */
  lemma SortStep(a: seq<Line>, a0: seq<Line>, i: nat)
    requires i < |a0| && a == InsertionSort(a0[..i]) + a0[i..]
    ensures a[..i] == InsertionSort(a0[..i]) && a[i] == a0[i] && a[i + 1..] == a0[i + 1..]
    ensures Insert(a[..i], a[i]) + a[i + 1..] == InsertionSort(a0[..i + 1]) + a0[i + 1..]
    ensures i == 0 ==> a == InsertionSort(a0[..i + 1]) + a0[i + 1..]
  {
    InsertionSortStep(a0, i);
    SplitAfterSorted(a, InsertionSort(a0[..i]), a0[i..], i);
    assert a0[i..][1..] == a0[i + 1..];
  }

  /** Sorts the array in place; the result is the functional insertion sort
      of the old contents. */
  method SortInPlace(a: array<Line>)
    modifies a
    ensures a[..] == InsertionSort(old(a[..]))
  {
    ghost var a0 := a[..];
    var i := 0;
    while i < a.Length
      invariant 0 <= i <= a.Length
      invariant a[..] == InsertionSort(a0[..i]) + a0[i..]
    {
      SortStep(a[..], a0, i);
      if i > 0 {
        InsertAt(a, i);
      }
      i := i + 1;
    }
    assert a0[..a.Length] == a0;
  }

  /** The lines of a part, ordered by the comparer: a sorted permutation of
      the lines read. */
  method SortEntries(lines: seq<Line>) returns (sorted: seq<Line>)
    ensures sorted == InsertionSort(lines)
    ensures Sorted(sorted)
    ensures multiset(sorted) == multiset(lines)
  {
    var entries := new Line[|lines|](i requires 0 <= i < |lines| => lines[i]);
    assert entries[..] == lines;
    SortInPlace(entries);
    sorted := entries[..];
    InsertionSortSorted(lines);
    InsertionSortMultiset(lines);
  }
}
