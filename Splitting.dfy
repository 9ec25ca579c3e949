/** The recursive partitioner, as a function of the service state and the
    lines of the file it splits.

    One run at depth `chars` routes every line (Routing). It then walks the
    run's range buckets in creation order: a bucket bigger than the in-memory
    threshold is split again one character deeper, and any other bucket is
    sorted and registered in the index of finished range parts under its
    key. */
module Splitting {
  import opened Comparer
  import opened TextFiles
  import opened Buckets
  import opened Naming
  import opened Routing
  import opened InMemorySort

  /** The state of the service that the partitioner changes: the finished
      range parts, the literal parts and the two part-name counters. */
  datatype Parts = Parts(sortParts: Index, noSortParts: Index, sortFileCount: nat, noSortFileCount: nat)

  /** How many more characters a run may still look at. */
  function Depth(bound: nat, chars: nat): nat {
    if bound + 1 >= chars then bound + 1 - chars else 0
  }

  /** The run's empty starting state: no range bucket yet. */
  function StartRun(p: Parts): RunState {
    RunState(map[], [], p.noSortParts, p.sortFileCount, p.noSortFileCount)
  }

  /** Every pending key has a bucket whose longest line lies between the
      run's depth and the bound of the run it came from. */
  ghost predicate Bounded(sf: Index, keys: seq<string>, chars: nat, bound: nat) {
    forall i :: 0 <= i < |keys| ==> keys[i] in sf && chars <= MaxLen(sf[keys[i]].lines) <= bound
  }

  lemma RunBounded(sf: Index, order: seq<string>, lines: seq<Line>, chars: nat)
    requires OrderOf(order, sf) && BucketsFrom(sf, lines, chars)
    ensures Bounded(sf, order, chars, MaxLen(lines))
  {
    forall i | 0 <= i < |order|
      ensures order[i] in sf && chars <= MaxLen(sf[order[i]].lines) <= MaxLen(lines)
    {
      var b := sf[order[i]].lines;
      MaxLenOfSubset(b, lines);
      assert b[0] in b;
    }
  }

  /** A part small enough for memory is sorted and registered under its key
      (replacing an entry under that key, should there be one). */
  function Store(p: Parts, k: string, part: Bucket): Parts {
    p.(sortParts := p.sortParts[k := Bucket(part.key, part.name, InsertionSort(part.lines))])
  }

  /** One partitioning run at depth `chars` over `lines`. */
  function SplitRun(p: Parts, baseDir: string, lines: seq<Line>, chars: nat): Parts
    decreases Depth(MaxLen(lines), chars), 1, 0
  {
    var run := RouteAll(StartRun(p), baseDir, chars, lines);
    RouteAllShape(StartRun(p), baseDir, chars, lines);
    RunBounded(run.sortFiles, run.order, lines, chars);
    FinishParts(AfterRouting(p, run), baseDir, run.sortFiles, run.order, chars, MaxLen(lines))
  }

  /** The walk over the run's range buckets `keys`. */
  function FinishParts(p: Parts, baseDir: string, sf: Index, keys: seq<string>, chars: nat, bound: nat): Parts
    requires Bounded(sf, keys, chars, bound)
    decreases Depth(bound, chars), 0, |keys|
  {
    if keys == [] then p
    else FinishParts(FinishHead(p, baseDir, keys[0], sf[keys[0]], chars), baseDir, sf, keys[1..], chars, bound)
  }

  /** The fate of one range bucket: a bucket bigger than the in-memory
      threshold is split one character deeper, any other is stored sorted. */
  function FinishHead(p: Parts, baseDir: string, k: string, part: Bucket, chars: nat): Parts
    decreases Depth(MaxLen(part.lines), chars + 1), 2, 0
  {
    if FileSize(part.lines) > MaxFilePartSize then SplitRun(p, baseDir, part.lines, chars + 1)
    else Store(p, k, part)
  }

  /** A run is its routing followed by the walk over its range buckets. */
  lemma SplitRunUnfold(p: Parts, baseDir: string, lines: seq<Line>, chars: nat)
    ensures var run := RouteAll(StartRun(p), baseDir, chars, lines);
      && Bounded(run.sortFiles, run.order, chars, MaxLen(lines))
      && SplitRun(p, baseDir, lines, chars)
         == FinishParts(AfterRouting(p, run), baseDir, run.sortFiles, run.order, chars, MaxLen(lines))
  {
    var run := RouteAll(StartRun(p), baseDir, chars, lines);
    RouteAllShape(StartRun(p), baseDir, chars, lines);
    RunBounded(run.sortFiles, run.order, lines, chars);
  }

  /** One step of the walk, at position j of the keys: once the bucket at j
      is finished, what remains of the walk is the walk over the keys after
      j. */
  lemma FinishPartsStep(p: Parts, next: Parts, baseDir: string, sf: Index, keys: seq<string>, j: nat, chars: nat, bound: nat, target: Parts)
    requires Bounded(sf, keys, chars, bound) && j < |keys|
    requires FinishParts(p, baseDir, sf, keys[j..], chars, bound) == target
    requires next == FinishHead(p, baseDir, keys[j], sf[keys[j]], chars)
    ensures Bounded(sf, keys[j + 1..], chars, bound)
    ensures FinishParts(next, baseDir, sf, keys[j + 1..], chars, bound) == target
  {
    var rest := keys[j..];
    assert rest[1..] == keys[j + 1..] && rest[0] == keys[j];
    BoundedSuffix(sf, keys, j, chars, bound);
    FinishPartsHead(p, baseDir, sf, rest, chars, bound);
  }

  lemma BoundedSuffix(sf: Index, keys: seq<string>, j: nat, chars: nat, bound: nat)
    requires Bounded(sf, keys, chars, bound) && j <= |keys|
    ensures Bounded(sf, keys[j..], chars, bound)
  {
    assert forall i :: 0 <= i < |keys| - j ==> keys[j..][i] == keys[j + i];
  }

  /** The walk over a non-empty list of keys finishes the first bucket and
      then walks the rest. */
  lemma FinishPartsHead(p: Parts, baseDir: string, sf: Index, keys: seq<string>, chars: nat, bound: nat)
    requires Bounded(sf, keys, chars, bound) && keys != []
    ensures Bounded(sf, keys[1..], chars, bound)
    ensures FinishParts(p, baseDir, sf, keys, chars, bound)
         == FinishParts(FinishHead(p, baseDir, keys[0], sf[keys[0]], chars), baseDir, sf, keys[1..], chars, bound)
  {
    BoundedSuffix(sf, keys, 1, chars, bound);
  }

  /** The bucket at position j is as long as the keys' bound allows. */
  lemma BoundedAt(sf: Index, keys: seq<string>, j: nat, chars: nat, bound: nat)
    requires Bounded(sf, keys, chars, bound) && j < |keys|
    ensures keys[j] in sf && chars <= MaxLen(sf[keys[j]].lines) <= bound
  {
  }

  lemma FinishHeadSplits(p: Parts, baseDir: string, k: string, part: Bucket, chars: nat)
    requires FileSize(part.lines) > MaxFilePartSize
    ensures FinishHead(p, baseDir, k, part, chars) == SplitRun(p, baseDir, part.lines, chars + 1)
  {
  }

  lemma FinishHeadStores(p: Parts, baseDir: string, k: string, part: Bucket, chars: nat)
    requires FileSize(part.lines) <= MaxFilePartSize
    ensures FinishHead(p, baseDir, k, part, chars) == Store(p, k, part)
  {
  }

  /** The walk over no keys leaves the state as it is. */
  lemma FinishPartsDone(p: Parts, baseDir: string, sf: Index, keys: seq<string>, chars: nat, bound: nat)
    ensures FinishParts(p, baseDir, sf, keys[|keys|..], chars, bound) == p
  {
    assert keys[|keys|..] == [];
  }

  // ---------------------------------------------------------------------
  // What a run leaves behind

  /** p2 extends p below c: every entry of p is still there unchanged, and
      every new key, range or literal, extends c. */
  ghost predicate GrowsBelow(p: Parts, p2: Parts, c: string) {
    && (forall r :: r in p.sortParts ==> r in p2.sortParts && p2.sortParts[r] == p.sortParts[r])
    && (forall r :: r in p2.sortParts && r !in p.sortParts ==> IsPrefix(c, r))
    && (forall q :: q in p.noSortParts ==> q in p2.noSortParts && p2.noSortParts[q] == p.noSortParts[q])
    && (forall q :: q in p2.noSortParts && q !in p.noSortParts ==> IsPrefix(c, q))
  }

  /** Nothing in p lies in the subtree of a pending key: no range key is
      prefix-comparable with it and no literal key extends it. */
  ghost predicate Room(p: Parts, keys: seq<string>) {
    && (forall i, r :: 0 <= i < |keys| && r in p.sortParts ==> !PrefixComparable(r, keys[i]))
    && (forall i, q :: 0 <= i < |keys| && q in p.noSortParts ==> !IsPrefix(keys[i], q))
  }

  /** The pending range buckets of a run at depth chars below c: distinct
      keys of length chars extending c, each bucket remembering a key that
      folds to it and holding only lines that extend it. */
  ghost predicate Pending(sf: Index, keys: seq<string>, chars: nat, c: string) {
    && (forall i, j :: 0 <= i < j < |keys| ==> keys[i] != keys[j])
    && (forall i :: 0 <= i < |keys| ==>
          && keys[i] in sf && |keys[i]| == chars && IsPrefix(c, keys[i])
          && Fold(sf[keys[i]].key) == keys[i]
          && forall x :: x in sf[keys[i]].lines ==> IsPrefix(keys[i], Fold(x)))
  }

  /** The lines of the pending buckets. */
  ghost function SumLines(sf: Index, keys: seq<string>): multiset<Line>
    requires forall i :: 0 <= i < |keys| ==> keys[i] in sf
  {
    if keys == [] then multiset{} else multiset(sf[keys[0]].lines) + SumLines(sf, keys[1..])
  }

  lemma {:induction false} SumLinesFrame(sf: Index, sf2: Index, keys: seq<string>)
    requires forall i :: 0 <= i < |keys| ==> keys[i] in sf && keys[i] in sf2 && sf2[keys[i]] == sf[keys[i]]
    ensures SumLines(sf, keys) == SumLines(sf2, keys)
    decreases |keys|
  {
    if keys != [] {
      SumLinesFrame(sf, sf2, keys[1..]);
    }
  }

  /** Walking the creation order visits every line of the run's index once. */
  lemma {:induction false} SumLinesTotal(sf: Index, keys: seq<string>)
    requires OrderOf(keys, sf)
    ensures SumLines(sf, keys) == Total(sf)
    decreases |keys|
  {
    if keys == [] {
      assert sf == map[];
    } else {
      var k, rest := keys[0], keys[1..];
      var sf2 := sf - {k};
      assert forall i :: 0 <= i < |rest| ==> rest[i] == keys[i + 1];
      assert OrderOf(rest, sf2) by {
        forall j | j in sf2 ensures j in rest {
          var i :| 0 <= i < |keys| && keys[i] == j;
        }
      }
      SumLinesFrame(sf, sf2, rest);
      SumLinesTotal(sf2, rest);
      TotalRemove(sf, k);
    }
  }

  /** A part small enough for memory, once sorted, is a finished range
      bucket. */
  lemma SortedPartOk(k: string, part: Bucket)
    requires Fold(part.key) == k && forall x :: x in part.lines ==> IsPrefix(k, Fold(x))
    requires FileSize(part.lines) <= MaxFilePartSize
    ensures RangeBucketOk(k, Bucket(part.key, part.name, InsertionSort(part.lines)))
    ensures multiset(InsertionSort(part.lines)) == multiset(part.lines)
  {
    var sorted := InsertionSort(part.lines);
    InsertionSortSorted(part.lines);
    InsertionSortMultiset(part.lines);
    FileSizePermutation(sorted, part.lines);
    forall x | x in sorted ensures IsPrefix(k, Fold(x)) {
      assert x in multiset(part.lines);
    }
  }

  lemma RoomOne(p: Parts, k: string)
    requires Room(p, [k])
    ensures forall r :: r in p.sortParts ==> !PrefixComparable(r, k)
    ensures forall q :: q in p.noSortParts ==> !IsPrefix(k, q)
    ensures k !in p.sortParts && k !in p.noSortParts
  {
    assert [k][0] == k;
    assert IsPrefix(k, k);
  }

  /** A new range key is the only thing an added range bucket adds. */
  lemma GrowsByRange(p: Parts, k: string, b: Bucket)
    requires k !in p.sortParts
    ensures GrowsBelow(p, p.(sortParts := p.sortParts[k := b]), k)
  {
    assert IsPrefix(k, k);
  }

  /** Registering a sorted part keeps the indexes well formed, adds exactly
      its lines, and adds nothing outside its key. */
  lemma StoreOk(p: Parts, k: string, part: Bucket)
    requires WellFormedIndex(p.sortParts, p.noSortParts) && Room(p, [k])
    requires Fold(part.key) == k && forall x :: x in part.lines ==> IsPrefix(k, Fold(x))
    requires FileSize(part.lines) <= MaxFilePartSize
    ensures WellFormedIndex(Store(p, k, part).sortParts, Store(p, k, part).noSortParts)
    ensures GrowsBelow(p, Store(p, k, part), k)
    ensures k !in p.sortParts
    ensures Total(Store(p, k, part).sortParts) == Total(p.sortParts) + multiset(part.lines)
  {
    var b := Bucket(part.key, part.name, InsertionSort(part.lines));
    SortedPartOk(k, part);
    RoomOne(p, k);
    WellFormedAddRange(p.sortParts, p.noSortParts, k, b);
    TotalAdd(p.sortParts, k, b);
    GrowsByRange(p, k, b);
  }

  lemma GrowsTrans(p: Parts, p2: Parts, p3: Parts, k: string, c: string)
    requires GrowsBelow(p, p2, k) && GrowsBelow(p2, p3, c) && IsPrefix(c, k)
    ensures GrowsBelow(p, p3, c)
  {
    forall r | r in p3.sortParts && r !in p.sortParts ensures IsPrefix(c, r) {
      if r in p2.sortParts {
        PrefixTransitive(c, k, r);
      }
    }
    forall q | q in p3.noSortParts && q !in p.noSortParts ensures IsPrefix(c, q) {
      if q in p2.noSortParts {
        PrefixTransitive(c, k, q);
      }
    }
  }

  lemma RoomHead(p: Parts, keys: seq<string>)
    requires Room(p, keys) && keys != []
    ensures Room(p, [keys[0]])
  {
  }

  /** What was added below the first pending key leaves room for its
      siblings. */
  lemma RoomAfter(p: Parts, p2: Parts, keys: seq<string>, chars: nat, c: string)
    requires Room(p, keys) && keys != []
    requires forall i :: 0 <= i < |keys| ==> |keys[i]| == chars
    requires forall i :: 0 < i < |keys| ==> keys[i] != keys[0]
    requires GrowsBelow(p, p2, keys[0])
    ensures Room(p2, keys[1..])
  {
    var k, rest := keys[0], keys[1..];
    forall i, r | 0 <= i < |rest| && r in p2.sortParts ensures !PrefixComparable(r, rest[i]) {
      assert rest[i] == keys[i + 1];
      if r !in p.sortParts {
        BelowSiblingIncomparable(k, rest[i], r);
      }
    }
    forall i, q | 0 <= i < |rest| && q in p2.noSortParts ensures !IsPrefix(rest[i], q) {
      assert rest[i] == keys[i + 1];
      if q !in p.noSortParts && IsPrefix(rest[i], q) {
        PrefixesOfOneString(k, rest[i], q);
      }
    }
  }

  /** The run's literal bucket under c holds lines comparer-equal to c, and c
      lies below no range key. */
  lemma LiteralRunOk(p: Parts, ns: Index, lines: seq<Line>, chars: nat, c: string)
    requires chars >= 1 && |c| == chars - 1
    requires forall x :: x in lines ==> IsPrefix(c, Fold(x))
    requires WellFormedIndex(p.sortParts, p.noSortParts) && Room(p, [c])
    requires LiteralIndexOf(ns, p.noSortParts, lines, chars, c)
    ensures WellFormedIndex(p.sortParts, ns)
    ensures GrowsBelow(p, p.(noSortParts := ns), c)
  {
    RoomOne(p, c);
    if c in ns {
      forall x | x in ns[c].lines ensures Fold(x) == c {
        LiteralLinesMember(lines, chars, x);
        ShortLineFoldsToPrefix(c, x);
      }
      assert LiteralBucketOk(c, ns[c]);
    }
    assert IsPrefix(c, c);
    forall r, q | r in p.sortParts && q in ns ensures !IsPrefix(r, q) {
      if q == c {
        assert !PrefixComparable(r, c);
      }
    }
  }

  /** The run's range buckets, walked in creation order, are pending below
      c. */
  lemma PendingOfRun(sf: Index, order: seq<string>, lines: seq<Line>, chars: nat, c: string)
    requires RangeIndexOf(sf, lines, chars, c) && OrderOf(order, sf)
    ensures Pending(sf, order, chars, c)
  {
    forall i, x | 0 <= i < |order| && x in sf[order[i]].lines ensures IsPrefix(order[i], Fold(x)) {
      RangeLinesMember(lines, chars, order[i], x);
      RangeLineHasKeyPrefix(x, chars, order[i]);
    }
  }

  /** Below c there is room for every range key of the run. */
  lemma RoomOfRun(p: Parts, ns: Index, sf: Index, order: seq<string>, chars: nat, c: string)
    requires chars >= 1 && |c| == chars - 1 && Room(p, [c])
    requires ns.Keys <= p.noSortParts.Keys + {c}
    requires Pending(sf, order, chars, c)
    ensures Room(p.(noSortParts := ns), order)
  {
    RoomOne(p, c);
    forall i, r | 0 <= i < |order| && r in p.sortParts ensures !PrefixComparable(r, order[i]) {
      ExtensionKeepsIncomparable(r, c, order[i]);
    }
    forall i, q | 0 <= i < |order| && q in ns ensures !IsPrefix(order[i], q) {
      if q != c && IsPrefix(order[i], q) {
        PrefixTransitive(c, order[i], q);
      }
    }
  }

  lemma PendingTail(sf: Index, keys: seq<string>, chars: nat, c: string, bound: nat)
    requires Pending(sf, keys, chars, c) && Bounded(sf, keys, chars, bound) && keys != []
    ensures Pending(sf, keys[1..], chars, c) && Bounded(sf, keys[1..], chars, bound)
    ensures forall i :: 0 < i < |keys| ==> keys[i] != keys[0]
  {
    assert forall i :: 0 <= i < |keys| - 1 ==> keys[1..][i] == keys[i + 1];
  }

  /** The state a run hands to the walk over its range buckets. */
  function AfterRouting(p: Parts, run: RunState): Parts {
    Parts(p.sortParts, run.noSortParts, run.sortFileCount, run.noSortFileCount)
  }

  /** Routing a run from an empty range index: the range buckets are pending
      below c and bounded by the longest line, the literal index gains at most
      the bucket under c, and no line is lost or duplicated. */
  lemma RunShape(st: RunState, baseDir: string, lines: seq<Line>, chars: nat, c: string)
    requires chars >= 1 && |c| == chars - 1
    requires forall x :: x in lines ==> IsPrefix(c, Fold(x))
    requires st.sortFiles == map[] && st.order == [] && c !in st.noSortParts
    ensures var run := RouteAll(st, baseDir, chars, lines);
      && Bounded(run.sortFiles, run.order, chars, MaxLen(lines))
      && Pending(run.sortFiles, run.order, chars, c)
      && LiteralIndexOf(run.noSortParts, st.noSortParts, lines, chars, c)
      && SumLines(run.sortFiles, run.order) + Total(run.noSortParts) == Total(st.noSortParts) + multiset(lines)
  {
    var run := RouteAll(st, baseDir, chars, lines);
    assert forall i :: 0 <= i < |lines| ==> lines[i] in lines;
    RouteAllRouted(st, baseDir, chars, c, lines);
    RouteAllTotal(st, baseDir, chars, c, lines);
    RouteAllShape(st, baseDir, chars, lines);
    RunBounded(run.sortFiles, run.order, lines, chars);
    PendingOfRun(run.sortFiles, run.order, lines, chars, c);
    SumLinesTotal(run.sortFiles, run.order);
  }

  /** Routing a run leaves a well-formed state with room for the run's range
      buckets, which are pending below c and hold, together with the literal
      index, exactly the lines held before plus the lines of the run. */
  lemma RunReady(p: Parts, baseDir: string, lines: seq<Line>, chars: nat, c: string)
    requires chars >= 1 && |c| == chars - 1
    requires forall x :: x in lines ==> IsPrefix(c, Fold(x))
    requires WellFormedIndex(p.sortParts, p.noSortParts) && Room(p, [c])
    ensures var run := RouteAll(StartRun(p), baseDir, chars, lines);
      var p1 := AfterRouting(p, run);
      && Bounded(run.sortFiles, run.order, chars, MaxLen(lines))
      && Pending(run.sortFiles, run.order, chars, c)
      && WellFormedIndex(p1.sortParts, p1.noSortParts) && Room(p1, run.order)
      && GrowsBelow(p, p1, c)
      && SumLines(run.sortFiles, run.order) + Total(p1.noSortParts) == Total(p.noSortParts) + multiset(lines)
  {
    var run := RouteAll(StartRun(p), baseDir, chars, lines);
    RoomOne(p, c);
    RunShape(StartRun(p), baseDir, lines, chars, c);
    LiteralRunOk(p, run.noSortParts, lines, chars, c);
    RoomOfRun(p, run.noSortParts, run.sortFiles, run.order, chars, c);
  }

  /** The correctness of one run: splitting lines that all extend c into a
      well-formed state with room below c leaves a well-formed state that
      keeps every earlier entry, adds keys only below c, and holds exactly the
      lines it held before plus the lines split. */
  lemma {:induction false} SplitRunOk(p: Parts, baseDir: string, lines: seq<Line>, chars: nat, c: string)
    requires chars >= 1 && |c| == chars - 1
    requires forall x :: x in lines ==> IsPrefix(c, Fold(x))
    requires WellFormedIndex(p.sortParts, p.noSortParts) && Room(p, [c])
    ensures var r := SplitRun(p, baseDir, lines, chars);
      && WellFormedIndex(r.sortParts, r.noSortParts)
      && GrowsBelow(p, r, c)
      && Total(r.sortParts) + Total(r.noSortParts) == Total(p.sortParts) + Total(p.noSortParts) + multiset(lines)
    decreases Depth(MaxLen(lines), chars), 1, 0, 0
  {
    var run := RouteAll(StartRun(p), baseDir, chars, lines);
    RunReady(p, baseDir, lines, chars, c);
    SplitRestOk(p, AfterRouting(p, run), run.sortFiles, run.order, baseDir, lines, chars, c);
  }

  /** The rest of a run, once its lines are routed into the range buckets
      sf, created in the order `order`, and the state p1. */
  lemma {:induction false} SplitRestOk(p: Parts, p1: Parts, sf: Index, order: seq<string>, baseDir: string, lines: seq<Line>, chars: nat, c: string)
    requires chars >= 1 && |c| == chars - 1
    requires Bounded(sf, order, chars, MaxLen(lines))
    requires SplitRun(p, baseDir, lines, chars) == FinishParts(p1, baseDir, sf, order, chars, MaxLen(lines))
    requires Pending(sf, order, chars, c)
    requires WellFormedIndex(p1.sortParts, p1.noSortParts) && Room(p1, order)
    requires GrowsBelow(p, p1, c) && p1.sortParts == p.sortParts
    requires SumLines(sf, order) + Total(p1.noSortParts) == Total(p.noSortParts) + multiset(lines)
    ensures var r := SplitRun(p, baseDir, lines, chars);
      && WellFormedIndex(r.sortParts, r.noSortParts)
      && GrowsBelow(p, r, c)
      && Total(r.sortParts) + Total(r.noSortParts) == Total(p.sortParts) + Total(p.noSortParts) + multiset(lines)
    decreases Depth(MaxLen(lines), chars), 0, |order|, 3
  {
    FinishPartsOk(p1, baseDir, sf, order, chars, MaxLen(lines), c);
    var r := FinishParts(p1, baseDir, sf, order, chars, MaxLen(lines));
    assert IsPrefix(c, c);
    GrowsTrans(p, p1, r, c, c);
    SumRegroup(Total(p.sortParts), Total(p1.noSortParts), SumLines(sf, order),
               Total(p.noSortParts) + multiset(lines));
  }

  lemma SumSwap(a: multiset<Line>, b: multiset<Line>, s: multiset<Line>)
    ensures (a + s) + b == a + b + s
  {
  }

  lemma SumRegroup(a: multiset<Line>, b: multiset<Line>, s: multiset<Line>, t: multiset<Line>)
    requires s + b == t
    ensures a + b + s == a + t
  {
  }

  /** Finishing one range bucket, either by splitting it one character
      deeper or by storing it sorted, keeps the state well formed, adds keys
      only below the bucket's key and adds exactly its lines. */
  lemma {:induction false} FinishOneOk(p: Parts, baseDir: string, k: string, part: Bucket, chars: nat)
    requires chars >= 1 && |k| == chars
    requires Fold(part.key) == k && forall x :: x in part.lines ==> IsPrefix(k, Fold(x))
    requires WellFormedIndex(p.sortParts, p.noSortParts) && Room(p, [k])
    ensures var next := FinishHead(p, baseDir, k, part, chars);
      && WellFormedIndex(next.sortParts, next.noSortParts)
      && GrowsBelow(p, next, k)
      && Total(next.sortParts) + Total(next.noSortParts) == Total(p.sortParts) + Total(p.noSortParts) + multiset(part.lines)
    decreases Depth(MaxLen(part.lines), chars + 1), 2, 0, 0
  {
    var next := FinishHead(p, baseDir, k, part, chars);
    if FileSize(part.lines) > MaxFilePartSize {
      FinishHeadSplits(p, baseDir, k, part, chars);
      FinishSplitOk(p, next, baseDir, k, part, chars);
    } else {
      FinishHeadStores(p, baseDir, k, part, chars);
      FinishStoreOk(p, next, k, part);
    }
  }

  /** A part too big for memory is never registered under its own key: it is
      split one character deeper, and only its sub-parts are registered. */
  lemma SplitPartNotRegistered(p: Parts, next: Parts, baseDir: string, k: string, part: Bucket, chars: nat)
    requires chars >= 1 && |k| == chars
    requires Fold(part.key) == k && forall x :: x in part.lines ==> IsPrefix(k, Fold(x))
    requires WellFormedIndex(p.sortParts, p.noSortParts) && Room(p, [k])
    requires FileSize(part.lines) > MaxFilePartSize
    requires next == FinishHead(p, baseDir, k, part, chars)
    ensures k !in next.sortParts
  {
    FinishOneOk(p, baseDir, k, part, chars);
    RoomOne(p, k);
    if k in next.sortParts {
      OnlyKey(p, next, k);
      NotRegistered(p, next, k, part);
    }
  }

  /** When a run below k registers k itself, k is the only key it adds. */
  lemma OnlyKey(p: Parts, next: Parts, k: string)
    requires WellFormedIndex(next.sortParts, next.noSortParts) && GrowsBelow(p, next, k)
    requires k !in p.sortParts && k in next.sortParts
    ensures next.sortParts == p.sortParts[k := next.sortParts[k]]
    ensures next.noSortParts == p.noSortParts
  {
    forall r | r in next.sortParts && r !in p.sortParts ensures r == k {
      assert IsPrefix(k, r);
    }
    assert forall q :: q in next.noSortParts ==> q in p.noSortParts;
  }

  /** The bucket a run registers as its only new key holds all its lines,
      so their size is within the in-memory threshold. */
  lemma NotRegistered(p: Parts, next: Parts, k: string, part: Bucket)
    requires WellFormedIndex(next.sortParts, next.noSortParts) && k !in p.sortParts && k in next.sortParts
    requires next.sortParts == p.sortParts[k := next.sortParts[k]] && next.noSortParts == p.noSortParts
    requires Total(next.sortParts) + Total(next.noSortParts) == Total(p.sortParts) + Total(p.noSortParts) + multiset(part.lines)
    ensures FileSize(part.lines) <= MaxFilePartSize
  {
    var b := next.sortParts[k];
    TotalAdd(p.sortParts, k, b);
    var a, l := Total(p.sortParts), Total(p.noSortParts);
    assert a + multiset(b.lines) + l == a + l + multiset(part.lines);
    assert multiset(b.lines) == multiset(part.lines) by {
      forall x ensures multiset(b.lines)[x] == multiset(part.lines)[x] {
        assert (a + multiset(b.lines) + l)[x] == (a + l + multiset(part.lines))[x];
      }
    }
    assert RangeBucketOk(k, b);
    FileSizePermutation(b.lines, part.lines);
  }

  /** A part too big for memory is split one character deeper. */
  lemma {:induction false} FinishSplitOk(p: Parts, next: Parts, baseDir: string, k: string, part: Bucket, chars: nat)
    requires chars >= 1 && |k| == chars
    requires forall x :: x in part.lines ==> IsPrefix(k, Fold(x))
    requires WellFormedIndex(p.sortParts, p.noSortParts) && Room(p, [k])
    requires next == SplitRun(p, baseDir, part.lines, chars + 1)
    ensures WellFormedIndex(next.sortParts, next.noSortParts)
    ensures GrowsBelow(p, next, k)
    ensures Total(next.sortParts) + Total(next.noSortParts) == Total(p.sortParts) + Total(p.noSortParts) + multiset(part.lines)
    decreases Depth(MaxLen(part.lines), chars + 1), 1, 0, 1
  {
    SplitRunOk(p, baseDir, part.lines, chars + 1, k);
  }

  /** A part small enough for memory is stored sorted. */
  lemma FinishStoreOk(p: Parts, next: Parts, k: string, part: Bucket)
    requires Fold(part.key) == k && forall x :: x in part.lines ==> IsPrefix(k, Fold(x))
    requires WellFormedIndex(p.sortParts, p.noSortParts) && Room(p, [k])
    requires FileSize(part.lines) <= MaxFilePartSize
    requires next == Store(p, k, part)
    ensures WellFormedIndex(next.sortParts, next.noSortParts)
    ensures GrowsBelow(p, next, k)
    ensures Total(next.sortParts) + Total(next.noSortParts) == Total(p.sortParts) + Total(p.noSortParts) + multiset(part.lines)
  {
    StoreOk(p, k, part);
    SumSwap(Total(p.sortParts), Total(p.noSortParts), multiset(part.lines));
  }

  /** Finishing the first pending bucket leaves the rest pending, with room. */
  lemma {:induction false} FinishHeadOk(p: Parts, baseDir: string, sf: Index, keys: seq<string>, chars: nat, bound: nat, c: string)
    requires Bounded(sf, keys, chars, bound) && keys != []
    requires chars >= 1 && |c| == chars - 1
    requires Pending(sf, keys, chars, c)
    requires WellFormedIndex(p.sortParts, p.noSortParts) && Room(p, keys)
    ensures var next := FinishHead(p, baseDir, keys[0], sf[keys[0]], chars);
      && WellFormedIndex(next.sortParts, next.noSortParts)
      && GrowsBelow(p, next, keys[0])
      && Total(next.sortParts) + Total(next.noSortParts) == Total(p.sortParts) + Total(p.noSortParts) + multiset(sf[keys[0]].lines)
      && Room(next, keys[1..])
    ensures Pending(sf, keys[1..], chars, c) && Bounded(sf, keys[1..], chars, bound)
    decreases Depth(bound, chars), 0, |keys|, 0
  {
    var k, part := keys[0], sf[keys[0]];
    RoomHead(p, keys);
    assert chars <= MaxLen(part.lines) <= bound;
    FinishOneOk(p, baseDir, k, part, chars);
    PendingTail(sf, keys, chars, c, bound);
    RoomAfter(p, FinishHead(p, baseDir, k, part, chars), keys, chars, c);
  }

  /** The correctness of the walk over a run's range buckets. */
  lemma {:induction false} FinishPartsOk(p: Parts, baseDir: string, sf: Index, keys: seq<string>, chars: nat, bound: nat, c: string)
    requires Bounded(sf, keys, chars, bound)
    requires chars >= 1 && |c| == chars - 1
    requires Pending(sf, keys, chars, c)
    requires WellFormedIndex(p.sortParts, p.noSortParts) && Room(p, keys)
    ensures var r := FinishParts(p, baseDir, sf, keys, chars, bound);
      && WellFormedIndex(r.sortParts, r.noSortParts)
      && GrowsBelow(p, r, c)
      && Total(r.sortParts) + Total(r.noSortParts) == Total(p.sortParts) + Total(p.noSortParts) + SumLines(sf, keys)
    decreases Depth(bound, chars), 0, |keys|, 2
  {
    if keys != [] {
      FinishHeadOk(p, baseDir, sf, keys, chars, bound, c);
      FinishTailOk(p, FinishHead(p, baseDir, keys[0], sf[keys[0]], chars), baseDir, sf, keys, chars, bound, c);
    }
  }

  /** The rest of the walk, once the first bucket is finished. */
  lemma {:induction false} FinishTailOk(p: Parts, next: Parts, baseDir: string, sf: Index, keys: seq<string>, chars: nat, bound: nat, c: string)
    requires Bounded(sf, keys, chars, bound) && keys != []
    requires next == FinishHead(p, baseDir, keys[0], sf[keys[0]], chars)
    requires chars >= 1 && |c| == chars - 1 && IsPrefix(c, keys[0])
    requires Pending(sf, keys[1..], chars, c) && Bounded(sf, keys[1..], chars, bound)
    requires WellFormedIndex(next.sortParts, next.noSortParts) && Room(next, keys[1..])
    requires GrowsBelow(p, next, keys[0])
    requires Total(next.sortParts) + Total(next.noSortParts) == Total(p.sortParts) + Total(p.noSortParts) + multiset(sf[keys[0]].lines)
    ensures var r := FinishParts(p, baseDir, sf, keys, chars, bound);
      && WellFormedIndex(r.sortParts, r.noSortParts)
      && GrowsBelow(p, r, c)
      && Total(r.sortParts) + Total(r.noSortParts) == Total(p.sortParts) + Total(p.noSortParts) + SumLines(sf, keys)
    decreases Depth(bound, chars), 0, |keys|, 1
  {
    FinishPartsOk(next, baseDir, sf, keys[1..], chars, bound, c);
    var r := FinishParts(next, baseDir, sf, keys[1..], chars, bound);
    GrowsTrans(p, next, r, keys[0], c);
    SumRegroup(Total(p.sortParts) + Total(p.noSortParts), multiset(sf[keys[0]].lines), SumLines(sf, keys[1..]),
               SumLines(sf, keys));
  }
}
