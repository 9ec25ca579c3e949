# External sort of FileSort, modelled in Dafny

This project models the sorting service of FileSort. It sorts the lines of a
text file under a case-insensitive comparer, and it can check that a file is
sorted.

A file smaller than the in-memory threshold of 100 MiB is read whole, sorted
and written out. A bigger file is partitioned into part files in a workspace
directory. At depth `chars`:

- a line shorter than `chars` goes to a service-wide *literal* part, keyed by
  the whole line;
- any other line goes to a *range* part of the run, keyed by its first `chars`
  characters.

A range part that is still bigger than the threshold is partitioned again, one
character deeper. Any other range part is sorted in memory and registered in
the index of finished parts. Finally each literal part is merged in before the
finished part of the same key, if there is one. All parts are then
concatenated, in ascending key order, into the output file.

The file store is the field `files` of the class
`SortingService.SortingService`. It maps a path to the file's lines. Part-file
contents are kept in the buckets of the two indexes, `sortParts` (finished
range parts) and `noSortParts` (literal parts). The methods of the class change
those fields and the two part-name counters as the service does. Each method is
proved against a function of the old state:

- routing a run: `Routing.RouteAll`;
- one run with the walk over its range parts: `Splitting.SplitRun`;
- the merge: `Buckets.MergeAll` and `Buckets.MergeParts`;
- the whole sort: `SortingService.ExternalSort`.

The correctness of those functions is proved as lemmas. The output is sorted
under the comparer, and it is a permutation of the input.

Modules, in dependency order:

- `Comparer`: the comparer, a lexicographic order on case-folded strings, and
  its order and prefix lemmas.
- `TextFiles`: the byte size of a file and its longest line.
- `Naming`: part-file names and their distinctness.
- `Buckets`: buckets, the two indexes, what a run leaves in them, the key
  order, and the merge and concatenation.
- `Routing`: the read loop of one run, as a function of the lines read.
- `InMemorySort`: the in-memory sort, as an in-place array sort specified by a
  functional insertion sort.
- `Splitting`: the recursive partitioner as a function, and its correctness
  (the two indexes stay well formed, and no line is lost or duplicated).
- `Validation`: what the validity check accepts.
- `SortingService`: the service class and the external sort as a whole.

## Model

| member | source | states |
|---|---|---|
| SortingService.SortingService.Sort | FileSort.Business/Services/SortingService.cs:70-92 | A missing input fails with NotFound and changes nothing. Otherwise the output file becomes the external sort of the input, which is sorted under the comparer and a permutation of the input, and no other file changes. The base directory becomes the input's directory. Below the threshold the indexes and counters are unchanged; above it they are left as `AfterExternalSort` says, so the counters carry over to the next call. |
| SortingService.SortingService.SortWhole | FileSort.Business/Services/SortingService.cs:76-80 | Below the threshold, the output file becomes the insertion sort of the whole input, which is what `ExternalSort` gives on that side. |
| SortingService.SortingService.SplitAndMerge | FileSort.Business/Services/SortingService.cs:81-91 | At or above the threshold, both indexes are emptied, the file is split from depth 1 and the parts are merged. The output is then the external sort of the input for the counters the service started with, and the indexes and counters are `AfterExternalSort`: the state after the depth-1 run, with the literal parts merged into the finished ones. |
| SortingService.ExternalSortCorrect | FileSort.Business/Services/SortingService.cs:70-92 | The external sort's output is sorted under the comparer and holds exactly the input's lines (as a multiset), on both sides of the threshold. |
| SortingService.SortOutputPassesCheck | FileSort.Business/Services/SortingService.cs:101-126 | The validity check accepts every output of the sort whose input lines carry no byte order mark at either end. |
| SortingService.BomLineFailsCheck | FileSort.Business/Services/SortingService.cs:112-114 | The restriction above is needed in the model: the sort orders `["\u{FEFF}a", "b"]` as `["b", "\u{FEFF}a"]`, and the check trims the mark and rejects that output. |
| SortingService.SortingService.IsSortingValid | FileSort.Business/Services/SortingService.cs:101-126 | For a missing file the result is NotFound. Otherwise it is `PassesCheck` of the file's lines. (The body also leaves the loop at the first failing line; the contract does not state this.) |
| SortingService.SortingService.RouteLine | FileSort.Business/Services/SortingService.cs:142-169 | One line is routed as `Routing.Route` says. A short line goes to the literal bucket of its own key, and a long one to the range bucket of its first `chars` characters. A missing bucket is created under the next name of its kind, and that counter moves on. |
| SortingService.SortingService.RouteLines | FileSort.Business/Services/SortingService.cs:134-171 | The read loop: the run's range index, its creation order, the literal index and the counters end up as `RouteAll` of the lines in read order, starting from an empty range index. |
| SortingService.SortingService.Split | FileSort.Business/Services/SortingService.cs:132-205 | The service state after a run at depth `chars` is `SplitRun` of the old state. The recursion terminates because the number of characters left below the longest line decreases. |
| SortingService.SortingService.FinishPart | FileSort.Business/Services/SortingService.cs:173-204 | A range part bigger than the threshold is split one character deeper (that it is never registered is `Splitting.SplitPartNotRegistered`). Any other part is sorted and registered under its key. |
| SortingService.SortingService.Merge | FileSort.Business/Services/SortingService.cs:234-262 | The finished index becomes the literal parts merged in ascending key order, the same as `MergeParts` of the two indexes. The output file becomes the concatenation of all parts in ascending key order. |
| SortingService.SortingService.NextPartFileName | FileSort.Business/Services/SortingService.cs:266 | Returns the range-part name of the current counter, and the counter moves on by one. |
| SortingService.SortingService.NextNoSortPartFileName | FileSort.Business/Services/SortingService.cs:264 | Returns the literal-part name of the current counter, and the counter moves on by one. |
| SortingService.DirectoryName | FileSort.Business/Services/SortingService.cs:74 | The result is the part of the path before its last backslash: a prefix of the path followed by a backslash, with no backslash after it. A path without a backslash gives the empty string. |
| InMemorySort.SortEntries | FileSort.Business/Services/SortingService.cs:207-232 | The lines written back are the insertion sort of the lines read. They are sorted under the comparer and a permutation of the lines read. |
| InMemorySort.SortInPlace | FileSort.Business/Services/SortingService.cs:221 | After the in-place sort, the array holds the functional insertion sort of its old contents. |
| InMemorySort.InsertAt | FileSort.Business/Services/SortingService.cs:221 | Swapping a[i] left past its greater neighbours turns the first i+1 elements into the insertion of a[i] into the first i. |
| InMemorySort.InsertionSortSorted | FileSort.Business/Services/SortingService.cs:221 | The functional sort orders the lines under the comparer. |
| InMemorySort.InsertionSortMultiset | FileSort.Business/Services/SortingService.cs:221 | The functional sort is a permutation of its input. |
| Routing.RouteAllRouted | FileSort.Business/Services/SortingService.cs:140-169 | Each range bucket holds exactly the lines routed to its key, in read order. The literal bucket of the run holds exactly the lines shorter than `chars`, in read order. No other literal bucket changes. |
| Routing.RouteAllTotal | FileSort.Business/Services/SortingService.cs:140-169 | Routing loses and duplicates no line: the two indexes gain exactly the multiset of lines read. |
| Routing.RouteCounters | FileSort.Business/Services/SortingService.cs:144-166 | A counter moves on exactly when a bucket of its kind is created. |
| Routing.RouteAllShape | FileSort.Business/Services/SortingService.cs:159-163 | The creation order lists every range key once. Every range bucket is non-empty and holds only lines of the run that are at least `chars` long. |
| Buckets.RangeIndexStep | FileSort.Business/Services/SortingService.cs:155-168 | Reading one more line keeps the range index exact. |
| Buckets.LiteralIndexStep | FileSort.Business/Services/SortingService.cs:142-154 | Reading one more line keeps the literal index exact. |
| Buckets.MergeAllIsMergeParts | FileSort.Business/Services/SortingService.cs:236-252 | Merging the literal parts one at a time, in ascending key order, gives the same index as merging them all at once. |
| Buckets.MergeAsWrittenDropsLiterals | FileSort.Business/Services/SortingService.cs:236-256 | As written, each literal part is copied from the end of what was written to it (`Buckets.Unflushed`). The output then holds only the lines of the range parts, and it is not a permutation of the input whenever there is any literal line. See Findings. |
| Buckets.MergedOutputSorted | FileSort.Business/Services/SortingService.cs:234-256 | For a well-formed pair of indexes, the concatenation of the merged parts is sorted and holds exactly the lines of both. No literal key is also a range key, so the tie branch of the merge is never taken. |
| Buckets.ConcatSorted | FileSort.Business/Services/SortingService.cs:256 | If every part is sorted and the parts are separated by key, then concatenating them in ascending key order gives a sorted file. |
| Buckets.ConcatTotal | FileSort.Business/Services/SortingService.cs:256 | The concatenation holds exactly the lines of all parts. |
| Buckets.PairInOrder | FileSort.Business/Services/SortingService.cs:236-256 | In a well-formed pair of indexes, every line of a part with a smaller key is at most every line of a part with a greater key. |
| Splitting.SplitRunOk | FileSort.Business/Services/SortingService.cs:132-205 | Run where every line extends c: the indexes stay well formed (range keys form a prefix-free trie with sorted, small parts, and literal parts hold lines equal to their key). Every earlier entry is kept, new keys all extend c, and the indexes gain exactly the lines split. |
| Splitting.FinishPartsOk | FileSort.Business/Services/SortingService.cs:173-204 | The walk over a run's range parts keeps the indexes well formed and adds exactly the lines of the pending parts. |
| Splitting.FinishOneOk | FileSort.Business/Services/SortingService.cs:181-203 | Finishing one range part keeps the indexes well formed, adds keys only below its key, and adds exactly its lines. This holds whether the part is split again or stored. |
| Splitting.SplitPartNotRegistered | FileSort.Business/Services/SortingService.cs:181-186 | A range part bigger than the threshold, finished from a well-formed state with room below its key, leaves its own key out of the range index: only its sub-parts are registered. |
| Splitting.StoreOk | FileSort.Business/Services/SortingService.cs:188-203 | Registering a sorted part adds a key that was not yet present, so no entry is overwritten. It keeps the indexes well formed and adds exactly the part's lines. |
| Splitting.SortedPartOk | FileSort.Business/Services/SortingService.cs:192 | A small part, once sorted, is a finished range part with the same lines. |
| Splitting.FinishPartsStep | FileSort.Business/Services/SortingService.cs:173-204 | After the part at position j is finished, what remains of the walk is the walk over the keys after j. |
| Validation.SortedPassesCheck | FileSort.Business/Services/SortingService.cs:108-125 | Every sorted file without byte order marks at line ends passes the check. |
| Validation.PassingCheckIsSorted | FileSort.Business/Services/SortingService.cs:108-125 | A file of non-empty lines without byte order marks that passes the check is sorted. |
| Validation.EmptyLineHidesDisorder | FileSort.Business/Services/SortingService.cs:114-120 | An empty line never fails but becomes the previous line, so `["b", "", "a"]` passes the check although it is not sorted. |
| Validation.FailsCheckAt | FileSort.Business/Services/SortingService.cs:114-118 | A non-empty trimmed line that the comparer puts before its trimmed predecessor fails the check. |
| Naming.PartFileNamesDistinct | FileSort.Business/Services/SortingService.cs:266 | Distinct counter values give distinct range-part names. |
| Naming.NoSortPartFileNamesDistinct | FileSort.Business/Services/SortingService.cs:264 | Distinct counter values give distinct literal-part names. |
| Naming.PartKindsDistinct | FileSort.Business/Services/SortingService.cs:264-266 | A range-part name is never a literal-part name. |
| Naming.NatToStringInjective | FileSort.Business/Services/SortingService.cs:264-266 | The decimal notation of the counter is injective. |
| TextFiles.FileSizePermutation | FileSort.Business/Services/SortingService.cs:221-230 | Sorting a part does not change its size. |
| Comparer.LexTrichotomy | FileSort.Models/Common/AppConstants.cs:75 | Any two folded strings are ordered one way or the other, or they are equal. |
| Comparer.LexTransitive | FileSort.Models/Common/AppConstants.cs:75 | The comparer's strict order is transitive. |
| Comparer.DivergentExtensions | FileSort.Business/Services/SortingService.cs:157-163 | Extensions of two prefix-incomparable keys are ordered as the keys are. This is why parts concatenated in key order are sorted. |
| Comparer.AdjacentSortedIsSorted | FileSort.Business/Services/SortingService.cs:108-125 | A file whose neighbouring lines are in order is sorted. |

## Left out

- The comparer: `StringComparer.InvariantCultureIgnoreCase` is culture-aware collation, which is not visible here. It is modelled as lexicographic order by code point after folding ASCII upper case to lower case. Keys of comparer-keyed dictionaries are maps keyed by the folded key, and a bucket keeps the first key it was created with.
- Streams, encodings, buffering, flushing and disposal are not modelled. A file is a sequence of lines in `files`, and a part file is the line sequence of its bucket. The byte order mark that each part file starts with is not copied into the model's output. The permutation result rests on this abstraction. The source copies its literal parts unflushed and from their end position, which the corrected model does not do; see Findings.
- TextFiles.FileSize: the length of a file is the UTF-8 size of its lines plus two bytes of line end per line. The encoder's byte order mark is not counted. The length of a range part is read before its writer is flushed (SortingService.cs:175-178), and that is not modelled either: the model uses the full size. The length of the input file also depends on its own line terminators and byte order mark, which the modelled size does not see. These differences can only move the decision between the in-memory and the external path, and with it the relative order of comparer-equal lines: the output is sorted and a permutation of the input either way.
- The merged file name built with `AddSuffixToFileName` (SortingService.cs:241) is not modelled, because that branch is proved unreachable under the modelled comparer (`Buckets.MergedOutputSorted`). Under the real collation, ignorable characters could make a longer range key compare equal to a literal key. The merged bucket keeps the name of the range part.
- `GenerateSortedFileName` (SortingService.cs:62-63) only calls `AddSuffixToFileName` of the file provider, which is not part of this model.
- Deleting the workspace directory (SortingService.cs:90) and the split part files (SortingService.cs:186) is not modelled. Part files never enter `files`.
- Asynchronous execution and logging are not modelled. The model runs sequentially.
- SortingService.SortingService.NextPartFileName: the C# counters are 32-bit `int` and would wrap after 2^31 parts. The model uses unbounded naturals.
- InMemorySort.SortEntries: `List.Sort` is an unstable introspective sort. The model uses a stable insertion sort. Both give a sorted permutation, but lines that are equal under the comparer may come out in a different order.
- SortingService.SortingService.Split: the run's local `Dictionary` is walked in bucket-creation order. The enumeration order of `Dictionary` is not specified by .NET; it is creation order when nothing is removed.
- SortingService.DirectoryName: `FileInfo.DirectoryName` is modelled as the text before the last backslash. Full paths, drive letters and forward slashes are not modelled.
- The overwrite branch of the part registration (SortingService.cs:199-202) is modelled, with the same update as the other branch. `Splitting.StoreOk` proves that the key is never already present.
- SortingService.SortOutputPassesCheck: proved only for inputs whose lines carry no U+FEFF at either end. The modelled comparer orders U+FEFF as an ordinary character above the letters, while the check trims it before comparing, so the model's own sort can fail the check (`SortingService.BomLineFailsCheck`). The real collation ignores that character.
- Routing.Route: line lengths and prefixes are counted in Unicode scalar values. `line.Length` and `line.Substring(0, chars)` (SortingService.cs:142,157) count UTF-16 code units. A character outside the Basic Multilingual Plane counts 2 there and 1 here, so routing differs for it. For example, `"\u{1F600}"` at depth 2 goes to a range part in the source and to a literal part in the model. `Substring` can also split a surrogate pair, giving a key the model cannot represent.
- The constructor and the file provider are abstracted: the service is built over a given file store.

## Findings

| source | as written | input that shows it | evidently intended | confidence | as-written member | corrected member |
|---|---|---|---|---|---|---|
| FileSort.Business/Services/SortingService.cs:146-153, 250, 256 | A literal part is written through its stream and never flushed. The stream stays at the end of what was written. The final merge then copies that stream as it is, from its current position, so the literal part contributes no line to the output. | Any input of at least 100 MiB with an empty line. The empty line is shorter than the depth-1 key, goes to a literal part, and is missing from the output. | Every literal part is read in full, so the output is a permutation of the input. | not executed; reasoned from the stream calls | Buckets.MergeAsWrittenDropsLiterals | Buckets.MergedOutputSorted |
