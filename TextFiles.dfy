/** Text files as the sorter sees them: a sequence of lines, and the size in
    bytes that the file provider reports for such a file. */
module TextFiles {
  import opened Comparer

  /** The largest part the sorter handles in memory: 100 MiB. */
  const MaxFilePartSize: nat := 100 * 1024 * 1024

  /** Bytes taken by one character in UTF-8. */
  function Utf8Width(c: char): nat {
    if c as int < 0x80 then 1
    else if c as int < 0x800 then 2
    else if c as int < 0x10000 then 3
    else 4
  }

  function Utf8Length(s: string): nat {
    if s == [] then 0 else Utf8Width(s[0]) + Utf8Length(s[1..])
  }

  /** Bytes of one written line: its UTF-8 text and a CR LF terminator. */
  function LineSize(line: Line): nat {
    Utf8Length(line) + 2
  }

  /** The length of a file holding these lines. */
  function FileSize(lines: seq<Line>): nat {
    if lines == [] then 0 else LineSize(lines[0]) + FileSize(lines[1..])
  }

  /** The length of the longest line (0 for no lines). */
  function MaxLen(lines: seq<Line>): (r: nat)
    ensures forall x :: x in lines ==> |x| <= r
    ensures lines != [] ==> exists x :: x in lines && |x| == r
  {
    if lines == [] then 0
    else
      var rest := MaxLen(lines[1..]);
      if |lines[0]| >= rest then |lines[0]| else rest
  }

  lemma {:induction false} FileSizeAppend(a: seq<Line>, b: seq<Line>)
    ensures FileSize(a + b) == FileSize(a) + FileSize(b)
    decreases |a|
  {
    if a != [] {
      assert (a + b)[1..] == a[1..] + b;
      FileSizeAppend(a[1..], b);
    } else {
      assert a + b == b;
    }
  }

  /** The size of a file does not depend on the order of its lines, so sorting a
      part keeps it within the threshold it was measured against. */
  lemma {:induction false} FileSizePermutation(s: seq<Line>, t: seq<Line>)
    requires multiset(s) == multiset(t)
    ensures FileSize(s) == FileSize(t)
    decreases |s|
  {
    if s == [] {
      assert |t| == |multiset(t)| == 0;
    } else {
      var x := s[0];
      assert x in multiset(t);
      var j :| 0 <= j < |t| && t[j] == x;
      var rest := t[..j] + t[j + 1..];
      assert t == t[..j] + ([x] + t[j + 1..]);
      assert s == [x] + s[1..];
      assert multiset(rest) == multiset(t) - multiset{x};
      assert multiset(s[1..]) == multiset(s) - multiset{x};
      FileSizePermutation(s[1..], rest);
      FileSizeAppend(t[..j], [x] + t[j + 1..]);
      FileSizeAppend(t[..j], t[j + 1..]);
      assert ([x] + t[j + 1..])[1..] == t[j + 1..];
      assert FileSize([x] + t[j + 1..]) == LineSize(x) + FileSize(t[j + 1..]);
    }
  }

  lemma MaxLenOfSubset(t: seq<Line>, s: seq<Line>)
    requires forall x :: x in t ==> x in s
    ensures MaxLen(t) <= MaxLen(s)
  {
  }
}
