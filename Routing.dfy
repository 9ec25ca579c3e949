/** The read loop of one partitioning run, as a function of the lines read.

    A run at depth `chars` reads its input line by line. A line shorter than
    `chars` goes to the literal bucket of the service whose key is
    comparer-equal to the line; any other line goes to the run's own range
    bucket of its first `chars` characters. A missing bucket is created under
    the next name of its kind, and the line it was created for is the key it
    keeps. */
module Routing {
  import opened Comparer
  import opened Buckets
  import opened Naming

  /** What the read loop changes: the run's range index with its keys in the
      order the buckets were created (the order in which the run's dictionary
      enumerates them), the service's literal index and the two part-name
      counters. */
  datatype RunState = RunState(sortFiles: Index, order: seq<string>, noSortParts: Index,
                               sortFileCount: nat, noSortFileCount: nat)

  /** The state after routing one line. */
  function Route(st: RunState, baseDir: string, chars: nat, line: Line): RunState {
    if |line| < chars then
      var q := Fold(line);
      st.(noSortParts := AddLine(st.noSortParts, q, line, NoSortPartFileName(baseDir, st.noSortFileCount), line),
          noSortFileCount := if q in st.noSortParts then st.noSortFileCount else st.noSortFileCount + 1)
    else
      var k := Fold(line[..chars]);
      st.(sortFiles := AddLine(st.sortFiles, k, line[..chars], PartFileName(baseDir, st.sortFileCount), line),
          order := if k in st.sortFiles then st.order else st.order + [k],
          sortFileCount := if k in st.sortFiles then st.sortFileCount else st.sortFileCount + 1)
  }

  /** A part-name counter moves on exactly when a bucket of its kind is
      created. */
  lemma RouteCounters(st: RunState, baseDir: string, chars: nat, line: Line)
    ensures var r := Route(st, baseDir, chars, line);
      && r.sortFileCount == st.sortFileCount + |r.sortFiles.Keys - st.sortFiles.Keys|
      && r.noSortFileCount == st.noSortFileCount + |r.noSortParts.Keys - st.noSortParts.Keys|
  {
    var r := Route(st, baseDir, chars, line);
    if |line| < chars {
      NewKeys(st.noSortParts, Fold(line), line, NoSortPartFileName(baseDir, st.noSortFileCount), line);
      assert r.sortFiles.Keys - st.sortFiles.Keys == {};
    } else {
      NewKeys(st.sortFiles, Fold(line[..chars]), line[..chars], PartFileName(baseDir, st.sortFileCount), line);
      assert r.noSortParts.Keys - st.noSortParts.Keys == {};
    }
  }

  lemma NewKeys(m: Index, k: string, key: Line, name: string, line: Line)
    ensures |AddLine(m, k, key, name, line).Keys - m.Keys| == if k in m then 0 else 1
  {
    var d := AddLine(m, k, key, name, line).Keys - m.Keys;
    if k in m {
      assert d == {};
    } else {
      assert d == {k};
    }
  }

  /** The state after routing every line of `read`, in order. */
  function RouteAll(st: RunState, baseDir: string, chars: nat, read: seq<Line>): RunState {
    if read == [] then st
    else Route(RouteAll(st, baseDir, chars, read[..|read| - 1]), baseDir, chars, read[|read| - 1])
  }

  lemma RouteAllSnoc(st: RunState, baseDir: string, chars: nat, read: seq<Line>, line: Line)
    ensures RouteAll(st, baseDir, chars, read + [line]) == Route(RouteAll(st, baseDir, chars, read), baseDir, chars, line)
  {
    assert (read + [line])[..|read|] == read;
  }

  /** The creation order lists every range key once. */
  ghost predicate OrderOf(order: seq<string>, sf: Index) {
    && (forall i :: 0 <= i < |order| ==> order[i] in sf)
    && (forall k :: k in sf ==> k in order)
    && (forall i, j :: 0 <= i < j < |order| ==> order[i] != order[j])
  }

  /** Every range bucket of a run is non-empty and holds only lines of the run
      that are long enough to route. */
  ghost predicate BucketsFrom(sf: Index, read: seq<Line>, chars: nat) {
    forall k :: k in sf ==>
      && sf[k].lines != []
      && forall x :: x in sf[k].lines ==> x in read && |x| >= chars
  }

  lemma RouteOrder(st: RunState, baseDir: string, chars: nat, line: Line)
    requires OrderOf(st.order, st.sortFiles)
    ensures OrderOf(Route(st, baseDir, chars, line).order, Route(st, baseDir, chars, line).sortFiles)
  {
    if |line| >= chars {
      var k := Fold(line[..chars]);
      if k !in st.sortFiles {
        var o := st.order + [k];
        assert forall i :: 0 <= i < |st.order| ==> o[i] == st.order[i];
        assert o[|st.order|] == k;
      }
    }
  }

  lemma RouteBuckets(st: RunState, baseDir: string, chars: nat, read: seq<Line>, line: Line)
    requires BucketsFrom(st.sortFiles, read, chars)
    ensures BucketsFrom(Route(st, baseDir, chars, line).sortFiles, read + [line], chars)
  {
    var r := Route(st, baseDir, chars, line);
    if |line| >= chars {
      var K := Fold(line[..chars]);
      forall k | k in r.sortFiles
        ensures r.sortFiles[k].lines != []
        ensures forall x :: x in r.sortFiles[k].lines ==> x in read + [line] && |x| >= chars
      {
        if k != K {
          assert r.sortFiles[k] == st.sortFiles[k];
        } else if K in st.sortFiles {
          assert r.sortFiles[k].lines == st.sortFiles[k].lines + [line];
        } else {
          assert r.sortFiles[k].lines == [line];
        }
      }
    } else {
      assert r.sortFiles == st.sortFiles;
    }
  }

  /** Starting from no range buckets, the run's creation order lists every
      bucket once, and every bucket holds lines of the run long enough to
      route. */
  lemma {:induction false} RouteAllShape(st: RunState, baseDir: string, chars: nat, read: seq<Line>)
    requires st.sortFiles == map[] && st.order == []
    ensures OrderOf(RouteAll(st, baseDir, chars, read).order, RouteAll(st, baseDir, chars, read).sortFiles)
    ensures BucketsFrom(RouteAll(st, baseDir, chars, read).sortFiles, read, chars)
    decreases |read|
  {
    if read != [] {
      var pre, last := read[..|read| - 1], read[|read| - 1];
      assert read == pre + [last];
      RouteAllShape(st, baseDir, chars, pre);
      RouteAllSnoc(st, baseDir, chars, pre, last);
      RouteOrder(RouteAll(st, baseDir, chars, pre), baseDir, chars, last);
      RouteBuckets(RouteAll(st, baseDir, chars, pre), baseDir, chars, pre, last);
    }
  }

  /** A line that extends c and is shorter than |c| + 1 folds to c. */
  lemma ShortLineFoldsToPrefix(c: string, line: Line)
    requires IsPrefix(c, Fold(line)) && |line| < |c| + 1
    ensures Fold(line) == c
  {
  }

  /** The run's indexes are exact: starting from no range buckets and a
      literal index without c, routing lines that all extend c leaves in
      every range bucket exactly the lines routed to its key and under c
      exactly the lines too short to route, both in read order, and nothing
      else changes in the literal index. */
  lemma {:induction false} RouteAllRouted(st: RunState, baseDir: string, chars: nat, c: string, read: seq<Line>)
    requires chars >= 1 && |c| == chars - 1
    requires forall i :: 0 <= i < |read| ==> IsPrefix(c, Fold(read[i]))
    requires st.sortFiles == map[] && c !in st.noSortParts
    ensures Routed(RouteAll(st, baseDir, chars, read).sortFiles, RouteAll(st, baseDir, chars, read).noSortParts,
                   st.noSortParts, read, chars, c)
    decreases |read|
  {
    if read != [] {
      var pre, last := read[..|read| - 1], read[|read| - 1];
      assert read == pre + [last];
      assert IsPrefix(c, Fold(read[|read| - 1]));
      RouteAllRouted(st, baseDir, chars, c, pre);
      var s := RouteAll(st, baseDir, chars, pre);
      RouteAllSnoc(st, baseDir, chars, pre, last);
      var t := Route(s, baseDir, chars, last);
      if |last| < chars {
        ShortLineFoldsToPrefix(c, last);
      }
      RangeIndexStep(s.sortFiles, t.sortFiles, pre, chars, c, last, PartFileName(baseDir, s.sortFileCount));
      LiteralIndexStep(s.noSortParts, t.noSortParts, st.noSortParts, pre, chars, c, last,
                       NoSortPartFileName(baseDir, s.noSortFileCount));
    }
  }

  /** Routing a run loses and duplicates no line. */
  lemma RouteAllTotal(st: RunState, baseDir: string, chars: nat, c: string, read: seq<Line>)
    requires chars >= 1 && |c| == chars - 1
    requires forall i :: 0 <= i < |read| ==> IsPrefix(c, Fold(read[i]))
    requires st.sortFiles == map[] && c !in st.noSortParts
    ensures Total(RouteAll(st, baseDir, chars, read).sortFiles) + Total(RouteAll(st, baseDir, chars, read).noSortParts)
         == Total(st.noSortParts) + multiset(read)
  {
    RouteAllRouted(st, baseDir, chars, c, read);
    var r := RouteAll(st, baseDir, chars, read);
    RunTotal(r.sortFiles, r.noSortParts, st.noSortParts, read, chars, c);
  }
}
