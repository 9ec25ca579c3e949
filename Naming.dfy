/** Names of the part files in the workspace directory: a range part is
    "<dir>\Workspace\part_<n>.txt" and a literal part is
    "<dir>\Workspace\no_sort_part_<n>.txt", where n is a per-kind counter. */
module Naming {

  const WorkspaceDirectoryName: string := "Workspace"

  function DigitChar(d: nat): char
    requires d < 10
  {
    "0123456789"[d]
  }

  /** Decimal notation of a counter value. */
  function NatToString(n: nat): (r: string)
    ensures |r| >= 1
    ensures n >= 10 ==> |r| >= 2
    decreases n
  {
    if n < 10 then [DigitChar(n)] else NatToString(n / 10) + [DigitChar(n % 10)]
  }

  lemma DigitCharInjective(d: nat, e: nat)
    requires d < 10 && e < 10
    ensures DigitChar(d) == DigitChar(e) ==> d == e
  {
  }

  /** Distinct counter values have distinct decimal notations. */
  lemma {:induction false} NatToStringInjective(n: nat, m: nat)
    requires NatToString(n) == NatToString(m)
    ensures n == m
    decreases n
  {
    var s := NatToString(n);
    if n < 10 && m < 10 {
      DigitCharInjective(n, m);
    } else if n >= 10 && m >= 10 {
      var a, b := NatToString(n / 10), NatToString(m / 10);
      assert s == a + [DigitChar(n % 10)] == b + [DigitChar(m % 10)];
      assert a == s[..|s| - 1] == b;
      DigitCharInjective(n % 10, m % 10);
      NatToStringInjective(n / 10, m / 10);
    }
  }

  function WorkspacePath(baseDir: string): string {
    baseDir + "\\" + WorkspaceDirectoryName + "\\"
  }

  /** The name built from the range-part counter. */
  function PartFileName(baseDir: string, n: nat): string {
    WorkspacePath(baseDir) + "part_" + NatToString(n) + ".txt"
  }

  /** The name built from the literal-part counter. */
  function NoSortPartFileName(baseDir: string, n: nat): string {
    WorkspacePath(baseDir) + "no_sort_part_" + NatToString(n) + ".txt"
  }

  lemma StripAffixes(p: string, a: string, b: string, sfx: string)
    requires p + a + sfx == p + b + sfx
    ensures a == b
  {
    var s := p + a + sfx;
    assert |a| == |b|;
    assert a == s[|p|..|p| + |a|];
    assert b == s[|p|..|p| + |b|];
  }

  /** Every call to a name generator yields a name no earlier call of the same
      kind produced. */
  lemma PartFileNamesDistinct(baseDir: string, n: nat, m: nat)
    requires n != m
    ensures PartFileName(baseDir, n) != PartFileName(baseDir, m)
  {
    if PartFileName(baseDir, n) == PartFileName(baseDir, m) {
      StripAffixes(WorkspacePath(baseDir) + "part_", NatToString(n), NatToString(m), ".txt");
      NatToStringInjective(n, m);
    }
  }

  lemma NoSortPartFileNamesDistinct(baseDir: string, n: nat, m: nat)
    requires n != m
    ensures NoSortPartFileName(baseDir, n) != NoSortPartFileName(baseDir, m)
  {
    if NoSortPartFileName(baseDir, n) == NoSortPartFileName(baseDir, m) {
      StripAffixes(WorkspacePath(baseDir) + "no_sort_part_", NatToString(n), NatToString(m), ".txt");
      NatToStringInjective(n, m);
    }
  }

  /** A range part and a literal part of one workspace never share a file. */
  lemma PartKindsDistinct(baseDir: string, n: nat, m: nat)
    ensures PartFileName(baseDir, n) != NoSortPartFileName(baseDir, m)
  {
    var k := |WorkspacePath(baseDir)|;
    assert PartFileName(baseDir, n)[k] == 'p';
    assert NoSortPartFileName(baseDir, m)[k] == 'n';
  }
}
