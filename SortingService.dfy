/** The sorting service: the external sort of a text file held in a file
    store, and the check that a file is sorted.

    A file smaller than the in-memory threshold is sorted whole. A bigger file
    is partitioned into part files by a prefix of its lines (recursively, one
    character deeper each time a part is still too big), the small parts are
    sorted in memory, and the parts are concatenated in ascending key order. */
module SortingService {
  import opened Comparer
  import opened TextFiles
  import opened Buckets
  import opened Naming
  import opened Validation
  import opened Routing
  import opened Splitting
  import opened InMemorySort

  datatype Option<T> = None | Some(value: T)

  /** The only failure the service reports: a file it has to read is missing. */
  datatype Error = NotFound(path: string)

  datatype Outcome = Done | Failed(error: Error)

  datatype Result<T> = Ok(value: T) | Err(error: Error)

  /** The directory part of a path: everything before its last backslash. */
  function DirectoryName(path: string): (r: string)
    ensures |r| <= |path| && r == path[..|r|]
    ensures '\\' in path ==>
      |r| < |path| && path[|r|] == '\\' && forall j :: |r| < j < |path| ==> path[j] != '\\'
    ensures '\\' !in path ==> r == ""
  {
    if path == [] then []
    else if path[|path| - 1] == '\\' then path[..|path| - 1]
    else DirectoryName(path[..|path| - 1])
  }

  lemma TakeAll(s: seq<Line>)
    ensures s[..|s|] == s
  {
  }

  lemma TakeSnoc(s: seq<Line>, i: nat)
    requires i < |s|
    ensures s[..i + 1] == s[..i] + [s[i]]
  {
  }

  /** The output of the external sort of `lines`, for a service whose
      part-name counters stand at the given values: a file below the
      in-memory threshold is sorted whole; any other is partitioned from depth
      1 into empty indexes, the literal parts are merged into the range parts,
      and the parts are concatenated in ascending key order. */
  function ExternalSort(sortFileCount: nat, noSortFileCount: nat, baseDir: string, lines: seq<Line>): seq<Line> {
    if FileSize(lines) < MaxFilePartSize then InsertionSort(lines)
    else
      var r := SplitRun(Parts(map[], map[], sortFileCount, noSortFileCount), baseDir, lines, 1);
      Concat(MergeParts(r.sortParts, r.noSortParts))
  }

  /** The external sort is correct: its output is ordered by the comparer and
      holds exactly the lines of the input. */
  lemma ExternalSortCorrect(sortFileCount: nat, noSortFileCount: nat, baseDir: string, lines: seq<Line>)
    ensures Sorted(ExternalSort(sortFileCount, noSortFileCount, baseDir, lines))
    ensures multiset(ExternalSort(sortFileCount, noSortFileCount, baseDir, lines)) == multiset(lines)
  {
    if FileSize(lines) < MaxFilePartSize {
      InsertionSortSorted(lines);
      InsertionSortMultiset(lines);
    } else {
      var p := Parts(map[], map[], sortFileCount, noSortFileCount);
      EmptyTotal(p.sortParts);
      SplitRunOk(p, baseDir, lines, 1, "");
      var r := SplitRun(p, baseDir, lines, 1);
      MergedOutputSorted(r.sortParts, r.noSortParts);
      ConcatTotal(MergeParts(r.sortParts, r.noSortParts));
    }
  }

  /** The validity check accepts every output of the sort whose input has no
      byte order marks at the ends of its lines. */
  lemma SortOutputPassesCheck(sortFileCount: nat, noSortFileCount: nat, baseDir: string, lines: seq<Line>)
    requires forall i :: 0 <= i < |lines| ==> Untrimmed(lines[i])
    ensures PassesCheck(ExternalSort(sortFileCount, noSortFileCount, baseDir, lines))
  {
    var out := ExternalSort(sortFileCount, noSortFileCount, baseDir, lines);
    ExternalSortCorrect(sortFileCount, noSortFileCount, baseDir, lines);
    forall i | 0 <= i < |out| ensures Untrimmed(out[i]) {
      assert out[i] in multiset(lines);
      var j :| 0 <= j < |lines| && lines[j] == out[i];
    }
    SortedPassesCheck(out);
  }

  /** Below the threshold the external sort is the in-memory sort. */
  lemma ExternalSortSmall(sortFileCount: nat, noSortFileCount: nat, baseDir: string, lines: seq<Line>)
    requires FileSize(lines) < MaxFilePartSize
    ensures ExternalSort(sortFileCount, noSortFileCount, baseDir, lines) == InsertionSort(lines)
  {
  }

  /** Without the byte order mark condition the lemma above fails: the
      comparer orders U+FEFF as an ordinary character above the letters,
      while the check trims it before comparing. */
  lemma BomLineFailsCheck(sortFileCount: nat, noSortFileCount: nat, baseDir: string, lines: seq<Line>)
    requires lines == ["\U{FEFF}a", "b"]
    ensures ExternalSort(sortFileCount, noSortFileCount, baseDir, lines) == ["b", "\U{FEFF}a"]
    ensures !PassesCheck(ExternalSort(sortFileCount, noSortFileCount, baseDir, lines))
  {
    var x, y := lines[0], lines[1];
    assert Utf8Length(x) == 4 && Utf8Length(y) == 1;
    assert FileSize(lines) == LineSize(x) + FileSize(lines[1..]);
    assert lines[1..] == [y];
    assert FileSize([y]) == LineSize(y);
    ExternalSortSmall(sortFileCount, noSortFileCount, baseDir, lines);
    assert Less(y, x);
    assert lines[..1] == [x];
    assert InsertionSort([x]) == [x];
    assert Insert([x], y) == [y, x];
    assert InsertionSort(lines) == [y, x];
    assert Trim(x) == "a" && Trim(y) == "b";
    assert Less(Trim(x), Trim(y));
    FailsCheckAt([y, x], 1);
  }

  /** The service state a sort above the threshold leaves behind: the
      indexes and counters after the depth-1 run from empty indexes, with the
      literal parts merged into the finished ones. */
  function AfterExternalSort(sortFileCount: nat, noSortFileCount: nat, baseDir: string, lines: seq<Line>): Parts {
    var q := SplitRun(Parts(map[], map[], sortFileCount, noSortFileCount), baseDir, lines, 1);
    q.(sortParts := MergeParts(q.sortParts, q.noSortParts))
  }

  /** Above the threshold the external sort is the concatenation of the
      merged parts of the depth-1 run from empty indexes. */
  lemma ExternalSortSplits(p: Parts, baseDir: string, lines: seq<Line>, q: Parts, sorted: seq<Line>)
    requires FileSize(lines) >= MaxFilePartSize && p.sortParts == map[] && p.noSortParts == map[]
    requires q == SplitRun(p, baseDir, lines, 1)
    requires sorted == ExternalSort(p.sortFileCount, p.noSortFileCount, baseDir, lines)
    ensures sorted == Concat(MergeParts(q.sortParts, q.noSortParts))
  {
  }

  class SortingService {
    /** The file store: the lines of every file, by path. */
    var files: map<string, seq<Line>>
    /** The directory of the file being sorted; the workspace lives below it. */
    var baseDir: string
    var sortFileCount: nat
    var noSortFileCount: nat
    /** Finished range parts, by folded key. */
    var sortParts: Index
    /** Literal parts (lines shorter than the depth that read them), by folded
        key. */
    var noSortParts: Index

    constructor (files: map<string, seq<Line>>)
      ensures this.files == files
      ensures baseDir == "" && sortFileCount == 0 && noSortFileCount == 0
      ensures sortParts == map[] && noSortParts == map[]
    {
      this.files := files;
      baseDir := "";
      sortFileCount := 0;
      noSortFileCount := 0;
      sortParts := map[];
      noSortParts := map[];
    }

    /** The name of the next range part; the counter moves on, so no later call
        returns the same name (Naming.PartFileNamesDistinct). */
    method NextPartFileName() returns (name: string)
      modifies this`sortFileCount
      ensures name == PartFileName(baseDir, old(sortFileCount))
      ensures sortFileCount == old(sortFileCount) + 1
    {
      name := PartFileName(baseDir, sortFileCount);
      sortFileCount := sortFileCount + 1;
    }

    /** The name of the next literal part. */
    method NextNoSortPartFileName() returns (name: string)
      modifies this`noSortFileCount
      ensures name == NoSortPartFileName(baseDir, old(noSortFileCount))
      ensures noSortFileCount == old(noSortFileCount) + 1
    {
      name := NoSortPartFileName(baseDir, noSortFileCount);
      noSortFileCount := noSortFileCount + 1;
    }

    /** The part of the service state the partitioner changes. */
    ghost function State(): Parts
      reads this
    {
      Parts(sortParts, noSortParts, sortFileCount, noSortFileCount)
    }

    /** One step of the read loop of a run at depth `chars`: a line shorter
        than `chars` goes to the service's literal bucket of its own key, any
        other line to the run's range bucket of its first `chars` characters;
        a missing bucket is created under the next name of its kind. */
    method RouteLine(line: Line, chars: nat, sortFiles: Index, order: seq<string>)
      returns (next: Index, nextOrder: seq<string>)
      modifies this`noSortParts, this`noSortFileCount, this`sortFileCount
      ensures RunState(next, nextOrder, noSortParts, sortFileCount, noSortFileCount)
           == Route(RunState(sortFiles, order, old(noSortParts), old(sortFileCount), old(noSortFileCount)), baseDir, chars, line)
    {
      next, nextOrder := sortFiles, order;
      if |line| < chars {
        var q := Fold(line);
        if q !in noSortParts {
          var name := NextNoSortPartFileName();
          noSortParts := noSortParts[q := Bucket(line, name, [line])];
        } else {
          noSortParts := noSortParts[q := noSortParts[q].(lines := noSortParts[q].lines + [line])];
        }
      } else {
        var start := line[..chars];
        var k := Fold(start);
        if k !in sortFiles {
          var name := NextPartFileName();
          next := sortFiles[k := Bucket(start, name, [line])];
          nextOrder := order + [k];
        } else {
          next := sortFiles[k := sortFiles[k].(lines := sortFiles[k].lines + [line])];
        }
      }
    }

    /** The read loop of a run at depth `chars`: every line routed in order,
        starting from an empty range index. */
    method RouteLines(lines: seq<Line>, chars: nat) returns (sortFiles: Index, order: seq<string>)
      modifies this`noSortParts, this`noSortFileCount, this`sortFileCount
      ensures RunState(sortFiles, order, noSortParts, sortFileCount, noSortFileCount)
           == RouteAll(RunState(map[], [], old(noSortParts), old(sortFileCount), old(noSortFileCount)), baseDir, chars, lines)
    {
      ghost var st := RunState(map[], [], noSortParts, sortFileCount, noSortFileCount);
      sortFiles, order := map[], [];
      var i := 0;
      while i < |lines|
        invariant 0 <= i <= |lines|
        invariant RunState(sortFiles, order, noSortParts, sortFileCount, noSortFileCount)
               == RouteAll(st, baseDir, chars, lines[..i])
      {
        TakeSnoc(lines, i);
        RouteAllSnoc(st, baseDir, chars, lines[..i], lines[i]);
        sortFiles, order := RouteLine(lines[i], chars, sortFiles, order);
        i := i + 1;
      }
      TakeAll(lines);
    }

    /** One partitioning run at depth `chars` over `lines`: the lines are
        routed, then each range bucket, in creation order, is finished. */
    method Split(lines: seq<Line>, chars: nat)
      modifies this`sortParts, this`noSortParts, this`sortFileCount, this`noSortFileCount
      ensures State() == SplitRun(old(State()), baseDir, lines, chars)
      decreases Depth(MaxLen(lines), chars), 1
    {
      ghost var p0 := State();
      var sortFiles, order := RouteLines(lines, chars);
      ghost var bound := MaxLen(lines);
      SplitRunUnfold(p0, baseDir, lines, chars);
      assert State() == AfterRouting(p0, RouteAll(StartRun(p0), baseDir, chars, lines));
      var j := 0;
      while j < |order|
        invariant 0 <= j <= |order|
        invariant Bounded(sortFiles, order, chars, bound) && Bounded(sortFiles, order[j..], chars, bound)
        invariant FinishParts(State(), baseDir, sortFiles, order[j..], chars, bound) == SplitRun(p0, baseDir, lines, chars)
      {
        ghost var before := State();
        assert FinishParts(before, baseDir, sortFiles, order[j..], chars, bound) == SplitRun(p0, baseDir, lines, chars);
        BoundedAt(sortFiles, order, j, chars, bound);
        FinishPart(order[j], sortFiles[order[j]], chars);
        FinishPartsStep(before, State(), baseDir, sortFiles, order, j, chars, bound, SplitRun(p0, baseDir, lines, chars));
        j := j + 1;
      }
      FinishPartsDone(State(), baseDir, sortFiles, order, chars, bound);
    }

    /** The fate of one range bucket of a run at depth `chars`: a bucket
        bigger than the in-memory threshold is split again one character
        deeper; any other is sorted and registered under its key. */
    method FinishPart(k: string, part: Bucket, chars: nat)
      modifies this`sortParts, this`noSortParts, this`sortFileCount, this`noSortFileCount
      ensures State() == FinishHead(old(State()), baseDir, k, part, chars)
      decreases Depth(MaxLen(part.lines), chars + 1), 2
    {
      ghost var before := State();
      if FileSize(part.lines) > MaxFilePartSize {
        FinishHeadSplits(before, baseDir, k, part, chars);
        Split(part.lines, chars + 1);
      } else {
        FinishHeadStores(before, baseDir, k, part, chars);
        var sorted := SortEntries(part.lines);
        if k !in sortParts {
          sortParts := sortParts[k := Bucket(part.key, part.name, sorted)];
        } else {
          sortParts := sortParts[k := Bucket(part.key, part.name, sorted)];
        }
        assert State() == Store(before, k, part);
      }
    }

    /** The final merge: every literal part, in ascending key order, is put
        before the range part of the same key or, when there is none, added
        as a part of its own; then all parts are written one after another,
        in ascending key order, to the output file. */
    method Merge(output: string)
      modifies this`sortParts, this`files
      ensures sortParts == MergeAll(old(sortParts), noSortParts)
      ensures sortParts == MergeParts(old(sortParts), noSortParts)
      ensures files == old(files)[output := Concat(sortParts)]
    {
      var remaining := noSortParts;
      while |remaining| > 0
        invariant files == old(files)
        invariant MergeAll(sortParts, remaining) == MergeAll(old(sortParts), noSortParts)
        decreases |remaining|
      {
        var k := MinKey(remaining);
        var file := remaining[k];
        ghost var before := sortParts;
        if k in sortParts {
          sortParts := sortParts[k := Bucket(sortParts[k].key, sortParts[k].name, file.lines + sortParts[k].lines)];
        } else {
          sortParts := sortParts[k := file];
        }
        assert sortParts == MergeOne(before, k, file);
        RemoveShrinks(remaining, k);
        remaining := remaining - {k};
      }
      MergeAllIsMergeParts(old(sortParts), noSortParts);
      files := files[output := Concat(sortParts)];
    }

    /** The in-memory path of the sort: a file below the threshold is sorted
        whole and written to the output. */
    method SortWhole(lines: seq<Line>, output: string)
      requires FileSize(lines) < MaxFilePartSize
      modifies this`files
      ensures files == old(files)[output := ExternalSort(sortFileCount, noSortFileCount, baseDir, lines)]
      ensures files == old(files)[output := InsertionSort(lines)]
    {
      var sorted := SortEntries(lines);
      files := files[output := sorted];
    }

    /** The external path of the sort: the indexes are emptied, the file is
        partitioned from depth 1, and the parts are merged into the output. */
    method SplitAndMerge(lines: seq<Line>, output: string)
      requires FileSize(lines) >= MaxFilePartSize
      modifies this`sortParts, this`noSortParts, this`sortFileCount, this`noSortFileCount, this`files
      ensures files == old(files)[output := ExternalSort(old(sortFileCount), old(noSortFileCount), baseDir, lines)]
      ensures State() == AfterExternalSort(old(sortFileCount), old(noSortFileCount), baseDir, lines)
    {
      var dir := baseDir;
      noSortParts := map[];
      sortParts := map[];
      ghost var p := State();
      ghost var sorted := ExternalSort(p.sortFileCount, p.noSortFileCount, dir, lines);
      Split(lines, 1);
      ExternalSortSplits(p, dir, lines, State(), sorted);
      ghost var q := State();
      Merge(output);
      assert baseDir == dir && files == old(files)[output := sorted];
      assert State() == q.(sortParts := MergeParts(q.sortParts, q.noSortParts));
    }

    /** Sorts the file `input` into the file `output`. A missing input file
        is the one failure; otherwise the output is the external sort of the
        input, and no other file changes. Above the threshold the indexes and
        counters are left as the external sort leaves them. */
    method Sort(input: string, output: string) returns (r: Outcome)
      modifies this
      ensures input !in old(files) ==>
        && r == Failed(NotFound(input)) && files == old(files)
        && baseDir == old(baseDir) && State() == old(State())
      ensures input in old(files) ==>
        && baseDir == DirectoryName(input)
        && State() == if FileSize(old(files)[input]) < MaxFilePartSize then old(State())
                      else AfterExternalSort(old(sortFileCount), old(noSortFileCount), DirectoryName(input), old(files)[input])
      ensures input in old(files) ==>
        && r == Done
        && files == old(files)[output := ExternalSort(old(sortFileCount), old(noSortFileCount), DirectoryName(input), old(files)[input])]
        && Sorted(files[output])
        && multiset(files[output]) == multiset(old(files)[input])
    {
      if input !in files {
        return Failed(NotFound(input));
      }
      var lines := files[input];
      baseDir := DirectoryName(input);
      ghost var sorted := ExternalSort(sortFileCount, noSortFileCount, baseDir, lines);
      ExternalSortCorrect(sortFileCount, noSortFileCount, baseDir, lines);
      if FileSize(lines) < MaxFilePartSize {
        SortWhole(lines, output);
      } else {
        SplitAndMerge(lines, output);
      }
      assert files == old(files)[output := sorted];
      r := Done;
    }

    method IsSortingValid(fileName: string) returns (r: Result<bool>)
      ensures fileName !in files ==> r == Err(NotFound(fileName))
      ensures fileName in files ==> r == Ok(PassesCheck(files[fileName]))
    {
      if fileName !in files {
        return Err(NotFound(fileName));
      }
      var lines := files[fileName];
      var isValid := true;
      var previous: Option<string> := None;
      var i := 0;
      while i < |lines|
        invariant 0 <= i <= |lines| && isValid
        invariant previous == if i == 0 then None else Some(Trim(lines[i - 1]))
        invariant forall m :: 0 < m < i ==> Trim(lines[m]) == "" || !Less(Trim(lines[m]), Trim(lines[m - 1]))
      {
        var line := Trim(lines[i]);
        if line != "" && previous.Some? && Less(line, previous.value) {
          FailsCheckAt(lines, i);
          isValid := false;
          break;
        }
        previous := Some(line);
        i := i + 1;
      }
      r := Ok(isValid);
    }
  }
}
