/** What the validity check of a sorted file accepts. */
module Validation {
  import opened Comparer

  /** The byte order mark, which the check trims from both ends of each line. */
  const Bom: char := '\U{FEFF}'

  function TrimStart(s: string): (r: string)
    ensures r == [] || r[0] != Bom
    ensures (s == [] || s[0] != Bom) ==> r == s
    ensures |r| <= |s| && r == s[|s| - |r|..]
  {
    if s != [] && s[0] == Bom then TrimStart(s[1..]) else s
  }

  function TrimEnd(s: string): (r: string)
    ensures r == [] || r[|r| - 1] != Bom
    ensures (s == [] || s[|s| - 1] != Bom) ==> r == s
    ensures |r| <= |s| && r == s[..|r|]
  {
    if s != [] && s[|s| - 1] == Bom then TrimEnd(s[..|s| - 1]) else s
  }

  /** The line as the check compares it. */
  function Trim(s: string): string {
    TrimEnd(TrimStart(s))
  }

  /** No byte order mark at either end: trimming leaves the line alone. */
  predicate Untrimmed(s: string) {
    s == [] || (s[0] != Bom && s[|s| - 1] != Bom)
  }

  /** The file passes the check: no non-empty (trimmed) line has a predecessor
      that the comparer puts after it. The first line has no predecessor, and an
      empty line never fails but is the predecessor of the next line. */
  ghost predicate PassesCheck(lines: seq<Line>) {
    forall i :: 0 < i < |lines| ==>
      Trim(lines[i]) == "" || !Less(Trim(lines[i]), Trim(lines[i - 1]))
  }

  lemma TrimUntrimmed(s: string)
    requires Untrimmed(s)
    ensures Trim(s) == s
  {
  }

  /** Every sorted file without byte order marks passes the check. */
  lemma SortedPassesCheck(lines: seq<Line>)
    requires Sorted(lines)
    requires forall i :: 0 <= i < |lines| ==> Untrimmed(lines[i])
    ensures PassesCheck(lines)
  {
    forall i | 0 < i < |lines|
      ensures Trim(lines[i]) == "" || !Less(Trim(lines[i]), Trim(lines[i - 1]))
    {
      TrimUntrimmed(lines[i]);
      TrimUntrimmed(lines[i - 1]);
      assert Leq(lines[i - 1], lines[i]);
    }
  }

  /** Conversely, a file of non-empty lines without byte order marks that
      passes the check is sorted. */
  lemma PassingCheckIsSorted(lines: seq<Line>)
    requires PassesCheck(lines)
    requires forall i :: 0 <= i < |lines| ==> Untrimmed(lines[i]) && lines[i] != ""
    ensures Sorted(lines)
  {
    forall m | 0 < m < |lines| ensures Leq(lines[m - 1], lines[m]) {
      TrimUntrimmed(lines[m]);
      TrimUntrimmed(lines[m - 1]);
    }
    AdjacentSortedIsSorted(lines);
  }

  /** Without the non-empty condition the converse fails: an empty line between
      two lines in the wrong order hides the disorder from the check. */
  lemma EmptyLineHidesDisorder()
    ensures PassesCheck(["b", "", "a"])
    ensures !Sorted(["b", "", "a"])
  {
    var s: seq<Line> := ["b", "", "a"];
    assert Fold("a") == "a" && Fold("b") == "b";
    assert Trim("b") == "b" && Trim("") == "" && Trim("a") == "a";
    assert Less(s[2], s[0]);
  }

  /** A non-empty line that the comparer puts before its predecessor fails
      the check. */
  lemma FailsCheckAt(lines: seq<Line>, i: nat)
    requires 0 < i < |lines| && Trim(lines[i]) != "" && Less(Trim(lines[i]), Trim(lines[i - 1]))
    ensures !PassesCheck(lines)
  {
  }
}
