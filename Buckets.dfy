/** The bucket index of the external sort.

    A bucket is one part file of the workspace: the key it was created under,
    the file name it was given and the lines written to it. Both indexes of the
    sorter (range buckets and literal buckets) are dictionaries ordered by the
    comparer; here they are maps from the folded key to the bucket. */
module Buckets {
  import opened Comparer
  import opened TextFiles

  datatype Bucket = Bucket(key: Line, name: string, lines: seq<Line>)

  type Index = map<string, Bucket>

  // ---------------------------------------------------------------------
  // Routing of one line at depth `chars`

  /** The line goes to the range bucket whose key folds to k. */
  predicate IsRangeLine(line: Line, chars: nat, k: string) {
    |line| >= chars && Fold(line[..chars]) == k
  }

  /** The lines of s routed to range key k, in read order. */
  function RangeLines(s: seq<Line>, chars: nat, k: string): seq<Line> {
    if s == [] then []
    else
      var last := s[|s| - 1];
      RangeLines(s[..|s| - 1], chars, k) + (if IsRangeLine(last, chars, k) then [last] else [])
  }

  /** The range bucket of k holds exactly the lines that route to k. */
  lemma {:induction false} RangeLinesMember(s: seq<Line>, chars: nat, k: string, x: Line)
    ensures x in RangeLines(s, chars, k) <==> x in s && IsRangeLine(x, chars, k)
    decreases |s|
  {
    if s != [] {
      assert s == s[..|s| - 1] + [s[|s| - 1]];
      RangeLinesMember(s[..|s| - 1], chars, k, x);
    }
  }

  lemma RangeLinesSnoc(s: seq<Line>, x: Line, chars: nat, k: string)
    ensures RangeLines(s + [x], chars, k)
         == RangeLines(s, chars, k) + (if IsRangeLine(x, chars, k) then [x] else [])
  {
    assert (s + [x])[..|s|] == s;
  }

  lemma RangeLineHasKeyPrefix(x: Line, chars: nat, k: string)
    requires IsRangeLine(x, chars, k)
    ensures IsPrefix(k, Fold(x))
  {
    FoldPrefix(x, chars);
  }

  /** The lines of s too short for depth `chars`, in read order. */
  function LiteralLines(s: seq<Line>, chars: nat): seq<Line> {
    if s == [] then []
    else
      var last := s[|s| - 1];
      LiteralLines(s[..|s| - 1], chars) + (if |last| < chars then [last] else [])
  }

  /** The literal bucket of a run holds exactly its lines shorter than chars. */
  lemma {:induction false} LiteralLinesMember(s: seq<Line>, chars: nat, x: Line)
    ensures x in LiteralLines(s, chars) <==> x in s && |x| < chars
    decreases |s|
  {
    if s != [] {
      assert s == s[..|s| - 1] + [s[|s| - 1]];
      LiteralLinesMember(s[..|s| - 1], chars, x);
    }
  }

  lemma LiteralLinesSnoc(s: seq<Line>, x: Line, chars: nat)
    ensures LiteralLines(s + [x], chars)
         == LiteralLines(s, chars) + (if |x| < chars then [x] else [])
  {
    assert (s + [x])[..|s|] == s;
  }

  /** The lines of s long enough for depth `chars`, in read order. */
  function LongLines(s: seq<Line>, chars: nat): seq<Line> {
    if s == [] then []
    else
      var last := s[|s| - 1];
      LongLines(s[..|s| - 1], chars) + (if |last| >= chars then [last] else [])
  }

  /** Every line of a run is either literal or long enough to route. */
  lemma {:induction false} SplitByLength(s: seq<Line>, chars: nat)
    ensures multiset(s) == multiset(LiteralLines(s, chars)) + multiset(LongLines(s, chars))
    decreases |s|
  {
    if s != [] {
      var pre, last := s[..|s| - 1], s[|s| - 1];
      assert s == pre + [last];
      SplitByLength(pre, chars);
    }
  }

  /** sf is the range index of one run at depth chars over the lines read so
      far, all of which fold to an extension of c: each bucket holds exactly
      the lines that route to its key, in read order, and a key without a
      bucket has no lines routed to it. */
  ghost predicate RangeIndexOf(sf: Index, read: seq<Line>, chars: nat, c: string) {
    && (forall k :: k in sf ==>
          && |k| == chars && IsPrefix(c, k) && Fold(sf[k].key) == k
          && sf[k].lines == RangeLines(read, chars, k) && sf[k].lines != [])
    && (forall k :: k !in sf ==> RangeLines(read, chars, k) == [])
  }

  /** ns is the literal index ns0 plus the lines of the run shorter than chars,
      all under c. */
  ghost predicate LiteralIndexOf(ns: Index, ns0: Index, read: seq<Line>, chars: nat, c: string) {
    && ns.Keys == ns0.Keys + (if LiteralLines(read, chars) == [] then {} else {c})
    && (forall q :: q in ns0 ==> ns[q] == ns0[q])
    && (c in ns ==> Fold(ns[c].key) == c && ns[c].lines == LiteralLines(read, chars))
  }

  /** Reading one more line keeps the range index exact. */
  lemma RangeIndexStep(sf: Index, next: Index, read: seq<Line>, chars: nat, c: string, line: Line, name: string)
    requires chars >= 1 && |c| == chars - 1 && IsPrefix(c, Fold(line))
    requires RangeIndexOf(sf, read, chars, c)
    requires |line| < chars ==> next == sf
    requires |line| >= chars ==> next == AddLine(sf, Fold(line[..chars]), line[..chars], name, line)
    ensures RangeIndexOf(next, read + [line], chars, c)
  {
    if |line| < chars {
      forall k
        ensures RangeLines(read + [line], chars, k) == RangeLines(read, chars, k)
      {
        RangeLinesSnoc(read, line, chars, k);
      }
    } else {
      RangeIndexAdd(sf, read, chars, c, line, name);
    }
  }

  lemma RangeIndexAdd(sf: Index, read: seq<Line>, chars: nat, c: string, line: Line, name: string)
    requires chars >= 1 && |c| == chars - 1 && IsPrefix(c, Fold(line)) && |line| >= chars
    requires RangeIndexOf(sf, read, chars, c)
    ensures RangeIndexOf(AddLine(sf, Fold(line[..chars]), line[..chars], name, line), read + [line], chars, c)
  {
    var K := Fold(line[..chars]);
    var next := AddLine(sf, K, line[..chars], name, line);
    FoldPrefix(line, chars);
    PrefixesOfOneString(c, K, Fold(line));
    forall k | k in next
      ensures && |k| == chars && IsPrefix(c, k) && Fold(next[k].key) == k
              && next[k].lines == RangeLines(read + [line], chars, k) && next[k].lines != []
    {
      RangeLinesSnoc(read, line, chars, k);
    }
    forall k | k !in next
      ensures RangeLines(read + [line], chars, k) == []
    {
      RangeLinesSnoc(read, line, chars, k);
    }
  }

  /** Reading one more line keeps the literal index exact. */
  lemma LiteralIndexStep(ns: Index, next: Index, ns0: Index, read: seq<Line>, chars: nat, c: string, line: Line, name: string)
    requires chars >= 1 && |c| == chars - 1 && IsPrefix(c, Fold(line))
    requires c !in ns0 && LiteralIndexOf(ns, ns0, read, chars, c)
    requires |line| < chars ==> next == AddLine(ns, c, line, name, line)
    requires |line| >= chars ==> next == ns
    ensures LiteralIndexOf(next, ns0, read + [line], chars, c)
  {
    LiteralLinesSnoc(read, line, chars);
    if |line| < chars {
      LiteralIndexAdd(ns, ns0, read, chars, c, line, name);
    } else {
      assert LiteralLines(read + [line], chars) == LiteralLines(read, chars);
    }
  }

  /** A line too short to route joins the literal bucket of c. */
  lemma LiteralIndexAdd(ns: Index, ns0: Index, read: seq<Line>, chars: nat, c: string, line: Line, name: string)
    requires |c| == chars - 1 && |line| < chars && IsPrefix(c, Fold(line))
    requires c !in ns0 && LiteralIndexOf(ns, ns0, read, chars, c)
    requires LiteralLines(read + [line], chars) == LiteralLines(read, chars) + [line]
    ensures LiteralIndexOf(AddLine(ns, c, line, name, line), ns0, read + [line], chars, c)
  {
    assert Fold(line)[..|c|] == Fold(line);
    var next := AddLine(ns, c, line, name, line);
    assert next.Keys == ns0.Keys + {c};
    assert next[c].lines == LiteralLines(read + [line], chars);
  }

  /** The state of both indexes after a run at depth chars has read `read`:
      sf is its range index and ns the literal index ns0 it started from plus
      its literal lines. */
  ghost predicate Routed(sf: Index, ns: Index, ns0: Index, read: seq<Line>, chars: nat, c: string) {
    RangeIndexOf(sf, read, chars, c) && LiteralIndexOf(ns, ns0, read, chars, c)
  }

  // ---------------------------------------------------------------------
  // Ascending key order

  predicate IsLeastKey(k: string, keys: set<string>) {
    k in keys && forall j :: j in keys ==> j == k || LexLess(k, j)
  }

  predicate IsMinKey(k: string, m: Index) {
    IsLeastKey(k, m.Keys)
  }

  lemma {:induction false} LeastKeyExists(keys: set<string>)
    requires keys != {}
    ensures exists k :: IsLeastKey(k, keys)
    decreases |keys|
  {
    var x :| x in keys;
    if keys != {x} {
      var rest := keys - {x};
      LeastKeyExists(rest);
      var k :| IsLeastKey(k, rest);
      LexTrichotomy(x, k);
      if LexLess(x, k) {
        forall j | j in keys ensures j == x || LexLess(x, j) {
          if j != x && j != k {
            LexTransitive(x, k, j);
          }
        }
        assert IsLeastKey(x, keys);
      } else {
        assert IsLeastKey(k, keys);
      }
    } else {
      assert IsLeastKey(x, keys);
    }
  }

  lemma LeastKeyUnique(k1: string, k2: string, keys: set<string>)
    requires IsLeastKey(k1, keys) && IsLeastKey(k2, keys)
    ensures k1 == k2
  {
    LexAsymmetric(k1, k2);
  }

  lemma MinKeyExists(m: Index)
    requires |m| > 0
    ensures exists k :: IsMinKey(k, m)
  {
    assert m.Keys != {} by {
      var j :| j in m;
    }
    LeastKeyExists(m.Keys);
    var k :| IsLeastKey(k, m.Keys);
    assert IsMinKey(k, m);
  }

  /** The least key of a non-empty index, in ascending key order. */
  function MinKey(m: Index): (k: string)
    requires |m| > 0
    ensures IsMinKey(k, m)
  {
    MinKeyExists(m);
    MinKeyUnique(m);
    var k :| k in m && IsMinKey(k, m);
    k
  }

  lemma MinKeyUnique(m: Index)
    ensures forall k1, k2 :: IsMinKey(k1, m) && IsMinKey(k2, m) ==> k1 == k2
  {
    forall k1, k2 | IsMinKey(k1, m) && IsMinKey(k2, m) ensures k1 == k2 {
      LeastKeyUnique(k1, k2, m.Keys);
    }
  }

  lemma RemoveShrinks(m: Index, k: string)
    requires k in m
    ensures |m - {k}| == |m| - 1
  {
    assert (m - {k}).Keys == m.Keys - {k};
  }

  /** The bucket contents one after another in ascending key order: what the
      final merge copies to the output file. */
  function Concat(m: Index): seq<Line>
    decreases |m|
  {
    if |m| == 0 then []
    else
      var k := MinKey(m);
      RemoveShrinks(m, k);
      m[k].lines + Concat(m - {k})
  }

  lemma ConcatUnfold(m: Index, k: string)
    requires IsMinKey(k, m)
    ensures Concat(m) == m[k].lines + Concat(m - {k})
  {
    assert |m| > 0;
    LeastKeyUnique(k, MinKey(m), m.Keys);
  }

  /** Some key of a non-empty index. */
  ghost function AnyKey(m: Index): (k: string)
    requires |m| > 0
    ensures k in m
  {
    assert m.Keys != {} by {
      var j :| j in m;
    }
    var k :| k in m;
    k
  }

  /** Every line the index holds, counted with multiplicity. */
  ghost function Total(m: Index): multiset<Line>
    decreases |m|
  {
    if |m| == 0 then multiset{}
    else
      var k := AnyKey(m);
      RemoveShrinks(m, k);
      multiset(m[k].lines) + Total(m - {k})
  }

  lemma EmptyTotal(m: Index)
    requires m == map[]
    ensures Total(m) == multiset{}
  {
  }

  /** Total does not depend on the key it removes first. */
  lemma {:induction false} TotalRemove(m: Index, k: string)
    requires k in m
    ensures Total(m) == multiset(m[k].lines) + Total(m - {k})
    decreases |m|
  {
    var j := AnyKey(m);
    RemoveShrinks(m, j);
    if j != k {
      RemoveShrinks(m, k);
      TotalRemove(m - {j}, k);
      TotalRemove(m - {k}, j);
      assert m - {j} - {k} == m - {k} - {j};
    }
  }

  /** The concatenation in key order holds every line of the index. */
  lemma {:induction false} ConcatTotal(m: Index)
    ensures multiset(Concat(m)) == Total(m)
    decreases |m|
  {
    if |m| > 0 {
      var k := MinKey(m);
      ConcatUnfold(m, k);
      TotalRemove(m, k);
      RemoveShrinks(m, k);
      ConcatTotal(m - {k});
    }
  }

  /** A new bucket adds its lines to the index. */
  lemma TotalAdd(m: Index, k: string, b: Bucket)
    requires k !in m
    ensures Total(m[k := b]) == Total(m) + multiset(b.lines)
  {
    TotalRemove(m[k := b], k);
    assert m[k := b] - {k} == m;
  }

  /** Appending a line to a bucket adds that line to the index. */
  lemma TotalAppend(m: Index, k: string, b: Bucket, x: Line)
    requires k in m && b.lines == m[k].lines + [x]
    ensures Total(m[k := b]) == Total(m) + multiset{x}
  {
    TotalRemove(m[k := b], k);
    assert m[k := b] - {k} == m - {k};
    TotalRemove(m, k);
  }

  /** The index after writing one line under k: appended to the bucket there,
      or to a new bucket created with the given key and file name. */
  function AddLine(m: Index, k: string, key: Line, name: string, line: Line): (r: Index)
    ensures r.Keys == m.Keys + {k}
    ensures forall j :: j in m && j != k ==> r[j] == m[j]
    ensures r[k].key == (if k in m then m[k].key else key)
    ensures r[k].lines == (if k in m then m[k].lines else []) + [line]
  {
    if k in m then m[k := m[k].(lines := m[k].lines + [line])]
    else m[k := Bucket(key, name, [line])]
  }

  /** The index with the last line of bucket k taken back; a bucket left
      empty is removed. */
  function Unappend(m: Index, k: string): (r: Index)
    requires k in m
    ensures r.Keys <= m.Keys && forall j :: j in m && j != k ==> j in r && r[j] == m[j]
  {
    var n := |m[k].lines|;
    if n <= 1 then m - {k} else m[k := m[k].(lines := m[k].lines[..n - 1])]
  }

  /** Taking back a bucket's last line takes exactly that line out of the
      index. */
  lemma TotalUnappend(m: Index, k: string, x: Line)
    requires k in m && m[k].lines != [] && m[k].lines[|m[k].lines| - 1] == x
    ensures Total(m) == Total(Unappend(m, k)) + multiset{x}
  {
    var n := |m[k].lines|;
    var m' := Unappend(m, k);
    assert m[k].lines == m[k].lines[..n - 1] + [x];
    if n <= 1 {
      assert m == m'[k := m[k]];
      TotalAdd(m', k, m[k]);
    } else {
      assert m == m'[k := m[k]];
      TotalAppend(m', k, m[k], x);
    }
  }

  /** The range index before the last line of a run was read. */
  ghost function Unread(sf: Index, chars: nat, last: Line): Index {
    if |last| < chars || Fold(last[..chars]) !in sf then sf else Unappend(sf, Fold(last[..chars]))
  }

  /** The last line of a run, when long enough to route, is the last line of
      its bucket. */
  lemma LastRouted(sf: Index, pre: seq<Line>, last: Line, chars: nat, c: string)
    requires RangeIndexOf(sf, pre + [last], chars, c) && |last| >= chars
    ensures Fold(last[..chars]) in sf
    ensures sf[Fold(last[..chars])].lines == RangeLines(pre, chars, Fold(last[..chars])) + [last]
  {
    RangeLinesSnoc(pre, last, chars, Fold(last[..chars]));
  }

  /** One key of the range index of the shorter run. */
  lemma UnreadAt(sf: Index, pre: seq<Line>, last: Line, chars: nat, c: string, k: string)
    requires RangeIndexOf(sf, pre + [last], chars, c)
    ensures k in Unread(sf, chars, last) ==>
      var b := Unread(sf, chars, last)[k];
      && |k| == chars && IsPrefix(c, k) && Fold(b.key) == k
      && b.lines == RangeLines(pre, chars, k) && b.lines != []
    ensures k !in Unread(sf, chars, last) ==> RangeLines(pre, chars, k) == []
  {
    RangeLinesSnoc(pre, last, chars, k);
    if |last| >= chars {
      LastRouted(sf, pre, last, chars, c);
    }
  }

  /** Taking back the last line of a run gives the range index of the shorter
      run. */
  lemma UnreadIndex(sf: Index, pre: seq<Line>, last: Line, chars: nat, c: string)
    requires RangeIndexOf(sf, pre + [last], chars, c)
    ensures RangeIndexOf(Unread(sf, chars, last), pre, chars, c)
  {
    var sf' := Unread(sf, chars, last);
    forall k | k in sf'
      ensures && |k| == chars && IsPrefix(c, k) && Fold(sf'[k].key) == k
              && sf'[k].lines == RangeLines(pre, chars, k) && sf'[k].lines != []
    {
      UnreadAt(sf, pre, last, chars, c, k);
    }
    forall k | k !in sf'
      ensures RangeLines(pre, chars, k) == []
    {
      UnreadAt(sf, pre, last, chars, c, k);
    }
  }

  /** A range index holds exactly the long lines of its run. */
  lemma {:induction false} RangeTotal(sf: Index, read: seq<Line>, chars: nat, c: string)
    requires RangeIndexOf(sf, read, chars, c)
    ensures Total(sf) == multiset(LongLines(read, chars))
    decreases |read|
  {
    if read == [] {
      assert forall k :: k !in sf;
      assert sf == map[];
    } else {
      var pre, last := read[..|read| - 1], read[|read| - 1];
      assert read == pre + [last];
      UnreadIndex(sf, pre, last, chars, c);
      RangeTotal(Unread(sf, chars, last), pre, chars, c);
      if |last| >= chars {
        LastRouted(sf, pre, last, chars, c);
        TotalUnappend(sf, Fold(last[..chars]), last);
      }
    }
  }

  /** A literal index holds the lines it started with plus the run's literal
      lines. */
  lemma LiteralTotal(ns: Index, ns0: Index, read: seq<Line>, chars: nat, c: string)
    requires c !in ns0 && LiteralIndexOf(ns, ns0, read, chars, c)
    ensures Total(ns) == Total(ns0) + multiset(LiteralLines(read, chars))
  {
    if LiteralLines(read, chars) == [] {
      assert ns == ns0;
    } else {
      assert ns == ns0[c := ns[c]];
      TotalAdd(ns0, c, ns[c]);
    }
  }

  /** Routing a run loses and duplicates no line. */
  lemma RunTotal(sf: Index, ns: Index, ns0: Index, read: seq<Line>, chars: nat, c: string)
    requires c !in ns0
    requires RangeIndexOf(sf, read, chars, c) && LiteralIndexOf(ns, ns0, read, chars, c)
    ensures Total(sf) + Total(ns) == Total(ns0) + multiset(read)
  {
    RangeTotal(sf, read, chars, c);
    LiteralTotal(ns, ns0, read, chars, c);
    SplitByLength(read, chars);
  }

  lemma RemoveFromUnion(r: Index, l: Index, k: string)
    requires k in r && k !in l
    ensures (r + l) - {k} == (r - {k}) + l
  {
    var a, b := (r + l) - {k}, (r - {k}) + l;
    assert a.Keys == b.Keys;
    forall j | j in a ensures a[j] == b[j] {
    }
  }

  lemma EmptyUnion(r: Index, l: Index)
    requires |r| == 0
    ensures r + l == l
  {
    assert r == map[];
  }

  lemma {:induction false} TotalUnion(r: Index, l: Index)
    requires r.Keys !! l.Keys
    ensures Total(r + l) == Total(r) + Total(l)
    decreases |r|
  {
    if |r| == 0 {
      EmptyUnion(r, l);
    } else {
      var k := AnyKey(r);
      var rest := r - {k};
      var a := multiset(r[k].lines);
      RemoveShrinks(r, k);
      RemoveFromUnion(r, l, k);
      assert (r + l)[k] == r[k];
      TotalRemove(r + l, k);
      TotalRemove(r, k);
      TotalUnion(rest, l);
      assert Total(r + l) == a + (Total(rest) + Total(l));
      assert a + (Total(rest) + Total(l)) == (a + Total(rest)) + Total(l);
    }
  }

  lemma {:induction false} ConcatMember(m: Index, y: Line)
    requires y in Concat(m)
    ensures exists k :: k in m && y in m[k].lines
    decreases |m|
  {
    var k := MinKey(m);
    ConcatUnfold(m, k);
    if y !in m[k].lines {
      RemoveShrinks(m, k);
      ConcatMember(m - {k}, y);
    }
  }

  /** Buckets whose keys are in order hold lines that are in order. */
  ghost predicate Separated(m: Index) {
    forall k1, k2 :: k1 in m && k2 in m && LexLess(k1, k2) ==>
      forall x, y :: x in m[k1].lines && y in m[k2].lines ==> Leq(x, y)
  }

  /** Concatenating internally sorted, separated buckets in key order gives a
      sorted file: no interleaving merge is needed. */
  lemma {:induction false} ConcatSorted(m: Index)
    requires forall k :: k in m ==> Sorted(m[k].lines)
    requires Separated(m)
    ensures Sorted(Concat(m))
    decreases |m|
  {
    if |m| > 0 {
      var k := MinKey(m);
      ConcatUnfold(m, k);
      var rest := m - {k};
      RemoveShrinks(m, k);
      ConcatSorted(rest);
      forall x, y | x in m[k].lines && y in Concat(rest) ensures Leq(x, y) {
        ConcatMember(rest, y);
        var k2 :| k2 in rest && y in rest[k2].lines;
        assert LexLess(k, k2);
      }
      SortedAppend(m[k].lines, Concat(rest));
    }
  }

  // ---------------------------------------------------------------------
  // The merge of the literal index into the range index

  /** A literal key that is also a range key gets the literal lines followed by
      the range lines; any other literal bucket is added as it is. */
  function MergeParts(r: Index, l: Index): Index {
    map k | k in r.Keys + l.Keys ::
      if k in r && k in l then Bucket(r[k].key, r[k].name, l[k].lines + r[k].lines)
      else if k in l then l[k]
      else r[k]
  }

  /** Merging one literal bucket b under key k: its lines go before those of
      the range bucket of the same key, which keeps its key and name, or it is
      added as it is when there is none. */
  function MergeOne(m: Index, k: string, b: Bucket): Index {
    if k in m then m[k := Bucket(m[k].key, m[k].name, b.lines + m[k].lines)] else m[k := b]
  }

  /** The literal buckets of rest merged into m one by one, in ascending key
      order. */
  function MergeAll(m: Index, rest: Index): Index
    decreases |rest|
  {
    if |rest| == 0 then m
    else
      var k := MinKey(rest);
      RemoveShrinks(rest, k);
      MergeAll(MergeOne(m, k, rest[k]), rest - {k})
  }

  /** Merging k first and the others afterwards is merging them all. */
  lemma MergePartsOne(m: Index, rest: Index, k: string)
    requires k in rest
    ensures MergeParts(MergeOne(m, k, rest[k]), rest - {k}) == MergeParts(m, rest)
  {
  }

  /** The order of the merge does not matter: one bucket at a time is the same
      as all buckets at once. */
  lemma {:induction false} MergeAllIsMergeParts(m: Index, rest: Index)
    ensures MergeAll(m, rest) == MergeParts(m, rest)
    decreases |rest|
  {
    if |rest| == 0 {
      assert rest == map[];
      assert MergeParts(m, rest) == m;
    } else {
      var k := MinKey(rest);
      RemoveShrinks(rest, k);
      MergeAllIsMergeParts(MergeOne(m, k, rest[k]), rest - {k});
      MergePartsOne(m, rest, k);
    }
  }

  /** The literal index as the final merge reads it when every literal part
      is still open at the end of what was written to it and was never
      flushed: each literal bucket reads as empty. */
  function Unflushed(l: Index): (r: Index)
    ensures r.Keys == l.Keys
    ensures forall k :: k in r ==> r[k] == l[k].(lines := [])
  {
    map k | k in l :: l[k].(lines := [])
  }

  lemma {:induction false} EmptyBucketsTotal(m: Index)
    requires forall k :: k in m ==> m[k].lines == []
    ensures Total(m) == multiset{}
    decreases |m|
  {
    if |m| > 0 {
      var k := AnyKey(m);
      RemoveShrinks(m, k);
      EmptyBucketsTotal(m - {k});
    }
  }

  /** Indexes without a common key merge into their union. */
  lemma MergeDisjoint(r: Index, l: Index)
    requires r.Keys !! l.Keys
    ensures MergeParts(r, l) == r + l
  {
  }

  /** The merge as written reads the literal parts from their end: its output
      holds the lines of the range parts only, so a file with any literal
      line comes out with lines missing. */
  lemma MergeAsWrittenDropsLiterals(r: Index, l: Index)
    requires r.Keys !! l.Keys
    ensures multiset(Concat(MergeParts(r, Unflushed(l)))) == Total(r)
    ensures Total(l) != multiset{} ==> multiset(Concat(MergeParts(r, Unflushed(l)))) != Total(r) + Total(l)
  {
    var u := Unflushed(l);
    MergeDisjoint(r, u);
    ConcatTotal(r + u);
    TotalUnion(r, u);
    EmptyBucketsTotal(u);
  }

  // ---------------------------------------------------------------------
  // What one partitioning run leaves in the two indexes

  /** A finalized range bucket: its lines extend its key, it was sorted, and it
      is no bigger than the in-memory threshold. */
  ghost predicate RangeBucketOk(p: string, b: Bucket) {
    && Fold(b.key) == p
    && Sorted(b.lines)
    && FileSize(b.lines) <= MaxFilePartSize
    && forall x :: x in b.lines ==> IsPrefix(p, Fold(x))
  }

  /** A literal bucket: every line in it is comparer-equal to its key. */
  ghost predicate LiteralBucketOk(q: string, b: Bucket) {
    && Fold(b.key) == q
    && forall x :: x in b.lines ==> Fold(x) == q
  }

  /** Range keys are the leaves of a trie (none is a prefix of another), and no
      range key is a prefix of a literal key. */
  ghost predicate WellFormedIndex(r: Index, l: Index) {
    && (forall p :: p in r ==> RangeBucketOk(p, r[p]))
    && (forall q :: q in l ==> LiteralBucketOk(q, l[q]))
    && (forall p, p' :: p in r && p' in r && p != p' ==> !PrefixComparable(p, p'))
    && (forall p, q :: p in r && q in l ==> !IsPrefix(p, q))
  }

  /** A range bucket whose key is incomparable with every range key and a
      prefix of no literal key can join a well-formed pair. */
  lemma WellFormedAddRange(r: Index, l: Index, k: string, b: Bucket)
    requires WellFormedIndex(r, l) && RangeBucketOk(k, b)
    requires forall p :: p in r ==> !PrefixComparable(p, k)
    requires forall q :: q in l ==> !IsPrefix(k, q)
    ensures WellFormedIndex(r[k := b], l)
  {
    var r2 := r[k := b];
    forall p, p' | p in r2 && p' in r2 && p != p' ensures !PrefixComparable(p, p') {
      if p == k {
        assert !PrefixComparable(p', k);
      } else if p' == k {
        assert !PrefixComparable(p, k);
      }
    }
  }

  lemma PairInOrder(r: Index, l: Index, k1: string, k2: string, x: Line, y: Line)
    requires WellFormedIndex(r, l)
    requires k1 in r.Keys + l.Keys && k2 in r.Keys + l.Keys && LexLess(k1, k2)
    requires x in (if k1 in r then r[k1] else l[k1]).lines
    requires y in (if k2 in r then r[k2] else l[k2]).lines
    ensures Leq(x, y)
  {
    var X, Y := Fold(x), Fold(y);
    LexAsymmetric(k1, k2);
    if k1 in r && k2 in r {
      DivergentExtensions(k1, k2, X, Y);
    } else if k1 in r {
      assert Y == k2 && IsPrefix(Y, Y);
      if IsPrefix(k2, k1) {
        PrefixNotAbove(k2, k1);
      }
      DivergentExtensions(k1, k2, X, Y);
    } else if k2 in r {
      assert X == k1;
      if IsPrefix(k1, k2) {
        PrefixTransitive(k1, k2, Y);
        ProperPrefixIsLess(X, Y);
      } else {
        assert IsPrefix(X, X);
        DivergentExtensions(k1, k2, X, Y);
      }
    }
    LessImpliesLeq(x, y);
  }

  /** The correctness argument of the external sort: merging a well-formed pair
      of indexes and concatenating in key order yields a sorted file holding
      exactly the lines of both indexes. */
  lemma MergedOutputSorted(r: Index, l: Index)
    requires WellFormedIndex(r, l)
    ensures r.Keys !! l.Keys
    ensures Sorted(Concat(MergeParts(r, l)))
    ensures Total(MergeParts(r, l)) == Total(r) + Total(l)
  {
    assert r.Keys !! l.Keys by {
      forall k | k in r && k in l ensures false {
        assert IsPrefix(k, k);
      }
    }
    var m := MergeParts(r, l);
    assert m == r + l;
    forall k | k in m ensures Sorted(m[k].lines) {
      if k in l {
        forall i, j | 0 <= i < j < |l[k].lines| ensures Leq(l[k].lines[i], l[k].lines[j]) {
          EquivalentLeq(l[k].lines[i], l[k].lines[j]);
        }
      }
    }
    forall k1, k2 | k1 in m && k2 in m && LexLess(k1, k2)
      ensures forall x, y :: x in m[k1].lines && y in m[k2].lines ==> Leq(x, y)
    {
      forall x, y | x in m[k1].lines && y in m[k2].lines ensures Leq(x, y) {
        PairInOrder(r, l, k1, k2, x, y);
      }
    }
    ConcatSorted(m);
    TotalUnion(r, l);
  }
}
