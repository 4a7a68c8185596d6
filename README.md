# onebrc aggregation core, modelled in Dafny

This project models the core of `run()` in `main.go` of a "one billion row
challenge" solver. The program reads a large file of `<station>;<value>` lines
and computes, for each station, the minimum, maximum, sum and count of its
values. The model covers two parts.

- **The worker** (`main.go:84-124`) takes one chunk of bytes. It scans the
  chunk into lines the way `bufio.Scanner` does with `ScanLines`. It keeps only
  lines that `bytes.Split` on `;` cuts into exactly two fields and whose second
  field parses as a number. It folds each such reading into a fresh
  station → `Summary` map (`Places`).
- **The merger** (`main.go:131-157`) folds each partial map into the one
  global result map.

The pieces are modelled as follows.

- Bytes are `Byte` (0..255) and station names are byte sequences.
- `float64` values become integers (`Value`), for example tenths of a degree.
  Integers are totally ordered and add exactly.
- `strconv.ParseFloat` becomes a parameter `parse: seq<Byte> -> Option<Value>`.
  Every result holds for every such parser.
- The worker's scan loop is the method `Aggregate.AggregateChunk`. It walks the
  chunk line by line, as `scanner.Scan()` does. It is proved equal to the
  function `ChunkSummary`.
- `ChunkSummary` is in turn proved against an independent reference. For every
  station, the entry is `Summarize` of that station's readings: their count,
  their sum, their least and their greatest value. A station with no reading
  has no entry.
- The merger's loop is modelled twice. `Merge.MergeAsWritten` follows the code.
  `Merge.MergeCombined` stores the combined summary back.
- `Pipeline.Run` chains the worker and the corrected merger. It is proved to
  give the aggregate of all lines of all chunks.
- `Pipeline.RunAsWritten` chains the worker and the merge as written. It is
  proved to keep, for each station, the summary from the first chunk that had
  the station.

Three points of the code decide the shape of the model.

- The code makes a fresh `Places` map per chunk (`main.go:84`) and sends it per
  chunk (`main.go:124`), so the model has one partial map per chunk.
- The merger computes a combined summary (`main.go:137-146`) but never stores
  it (see Findings). `Merge.MergeAsWritten` models the code and
  `Merge.MergeCombined` the evidently intended merge.
- Chunks are not cut at line ends, and each chunk is scanned on its own. A
  line cut by a chunk boundary can be lost (`Pipeline.CutLineIsLost`), credited
  to the wrong station (`Pipeline.CutNameMisattributed`) or recorded with the
  wrong value (`Pipeline.CutValueMisread`).

## Model

| member | source | states |
|---|---|---|
| `Summaries.Single` | main.go:114-120 | a station's first reading creates the summary of the one-reading sequence: min, max and sum are the value, count is 1 |
| `Summaries.Add` | main.go:104-113 | one more reading adds 1 to count; the new min is the lesser of the old min and the value, and the new max is the greater of the old max and the value |
| `Summaries.Combine` | main.go:137-146 | combining two summaries adds the counts; min is the lesser of both mins and max is the greater of both maxes |
| `Summaries.AddExtends` | main.go:102-113 | adding reading v to the summary of readings vs gives the summary of vs followed by v |
| `Summaries.CombineConcat` | main.go:137-146 | combining the summaries of readings a and b gives the summary of a followed by b |
| `Summaries.SummarizeWellFormed` | main.go:172-177 | the summary of any non-empty reading sequence has count >= 1, min <= max and count*min <= sum <= count*max (the average lies in [min, max]); every reading lies between min and max |
| `Summaries.CombineCommutative` | main.go:137-146 | the combine rule does not depend on argument order |
| `Summaries.CombineAssociative` | main.go:137-146 | the combine rule does not depend on grouping |
| `Summaries.CombineWellFormed` | main.go:137-146 | combining two well-formed summaries gives a well-formed summary |
| `Lines.DropCR` | main.go:86-89 | the line `bufio` yields is the bytes before the newline with one trailing CR removed: the result is a prefix of the input, exactly one byte shorter when the input ends in CR, and unchanged otherwise |
| `Lines.ScanLines` | main.go:86-89 | a chunk yields no more lines than it has bytes |
| `Lines.ScanLinesNoNewline` | main.go:86-89 | no line of a chunk contains a newline |
| `Lines.NextLine` | main.go:88-89 | one `scanner.Scan()` step: the chunk's lines are the line it returns followed by the lines of the bytes after it, which are fewer than before; the line holds no newline |
| `Lines.ScanTerminated` | main.go:86-89 | newline-terminated lines without a trailing CR scan back to exactly the same lines (no empty last line after the final newline) |
| `Lines.ScanUnterminated` | main.go:88-89 | a final fragment without a newline is still a line |
| `Lines.ScanCRLF` | main.go:88-89 | a line ending in CR LF loses exactly one CR |
| `Lines.ScanAppend` | main.go:86-89 | when the first part ends with a newline, scanning two parts joined gives the lines of the first part followed by the lines of the second |
| `Lines.Split` | main.go:91 | splitting on `;` gives at least one field, and no field contains `;` |
| `Lines.SplitJoin` | main.go:91 | joining the fields with `;` gives back the line |
| `Lines.SplitCount` | main.go:91-94 | there is one more field than there are `;` bytes, so "exactly two fields" means "exactly one `;`" |
| `Lines.SplitTwo` | main.go:91-96 | a name and a text without `;`, joined by one `;`, split back into exactly that name and that text |
| `Aggregate.ParseLine` | main.go:91-100 | a line yields a reading only if it has exactly one `;`; the reading's name is the bytes before the `;` and its value is what `parse` gives for the bytes after it |
| `Aggregate.ParseLineOf` | main.go:91-100 | conversely, name `;` text is read as (name, value) when the text parses, and yields nothing when it does not |
| `Aggregate.Accumulate` | main.go:102-121 | folding in a reading adds its name to the key set and leaves every other station's entry unchanged |
| `Aggregate.StepOnFields` | main.go:91-121 | a line's effect on the map, stated on its `;` fields as the worker's loop reads them |
| `Aggregate.StepReading` | main.go:91-121 | a line that holds a reading folds exactly that reading into the map |
| `Aggregate.SkippedLine` | main.go:91-100 | a line with no `;` or with several, or with a value that does not parse, leaves the map unchanged |
| `Aggregate.FirstReading` | main.go:114-120 | a station's first reading inserts {v, v, v, 1} and changes nothing else |
| `Aggregate.LaterReading` | main.go:102-113 | a later reading sets min := min(min, v), max := max(max, v), sum := sum + v, count := count + 1 for its station and changes nothing else |
| `Aggregate.Step` | main.go:91-121 | one line of the loop body: a line that is no reading leaves the map unchanged; a reading adds exactly its station to the keys, adds one to that station's count, leaves its value between the station's min and max, and leaves every other station unchanged |
| `Aggregate.AggregateLines` | main.go:88-122 | the `for scanner.Scan()` loop as a fold from an empty map: every station in the result counts at least one and at most as many readings as there are lines |
| `Aggregate.AggregateLast` | main.go:88-122 | the map after lines plus one more line is that line's step applied to the map after the lines |
| `Aggregate.AggregateMatchesValues` | main.go:84-122 | a station is in a chunk's map exactly when some line is a reading of it; its entry is then the summary of its readings, so its count is the number of well-formed lines with that name |
| `Aggregate.AggregateWellFormed` | main.go:84-122 | every entry of a chunk's map has count >= 1 and min <= max, and its average lies in [min, max] |
| `Aggregate.ReadingWithinBounds` | main.go:84-122 | every reading of a station in the chunk lies between that station's min and max |
| `Aggregate.AggregateChunk` | main.go:84-122 | the worker's scan loop over one chunk, starting from an empty map, returns exactly `ChunkSummary` of the chunk, and every entry is well formed |
| `Merge.KeepExisting` | main.go:133-154 | the merge as written: the result has the keys of both maps; every station already present keeps its summary; every absent station gets the partial's summary verbatim |
| `Merge.MergeAsWritten` | main.go:132-156 | the merger loop as written (the updated copy is never stored) returns exactly `KeepExisting` |
| `Merge.KeepExistingIdempotent` | main.go:135-146 | as written, merging the same partial again changes nothing |
| `Merge.KeepExistingLosesCount` | main.go:135-146 | one merge step as written, as an illustration: a station present on both sides ends with a count below the sum of the two counts (the whole-run effect is `Pipeline.AsWrittenDropsRepeatedChunk` and `Pipeline.KeptFirstIsFirstPartial`) |
| `Merge.MergeCombined` | main.go:132-156 | the merger loop with the combined summary stored back returns exactly `Merged` |
| `Merge.MergedCounts` | main.go:135-153 | after the corrected merge, the keys are those of both maps, and each count is the sum of the counts on both sides |
| `Merge.MergedCommutative` | main.go:132-155 | the corrected merge does not depend on the order of its two maps |
| `Merge.MergedAssociative` | main.go:132-155 | the corrected merge does not depend on grouping |
| `Merge.MergedWellFormed` | main.go:137-153 | the corrected merge keeps every entry well formed |
| `Merge.MergedIntoEmpty` | main.go:147-153 | merging into an empty result copies the partial |
| `Pipeline.AllLines` | main.go:84-88 | the lines the workers see, each chunk scanned on its own: there are no more of them than bytes in all chunks |
| `Pipeline.AggregateAppend` | main.go:84-155 | aggregating lines a followed by lines b equals the corrected merge of the two separate aggregates |
| `Pipeline.Run` | main.go:75-156 | the pipeline with the corrected merge returns the aggregate of every line of every chunk, with every chunk scanned separately, and every entry is well formed |
| `Pipeline.RunOrderIndependent` | main.go:131-156 | with the corrected merge, swapping two neighbouring chunks in arrival order gives the same result |
| `Pipeline.LineAlignedChunks` | main.go:84-88 | when every chunk ends at a line end, the workers see exactly the lines of the whole input |
| `Pipeline.CutLineIsLost` | main.go:84-100 | a reading split by a chunk boundary just after its `;` is lost (given that an empty field does not parse); the same line in one chunk is counted |
| `Pipeline.CutNameMisattributed` | main.go:84-100 | a reading cut inside its station name is credited to the name's tail (the first fragment has no `;` and is skipped); the same line in one chunk is credited to the whole name |
| `Pipeline.CutValueMisread` | main.go:84-100 | a reading cut inside its value is recorded with the value of the first part of the text (the second fragment has no `;` and is skipped); the same line in one chunk is recorded with the value of the whole text |
| `Pipeline.RunAsWritten` | main.go:75-156 | the pipeline as written returns `KeptFirst`, the partial maps folded with the merge as written |
| `Pipeline.KeptFirstIsFirstPartial` | main.go:133-153 | as written, a station's final summary is its summary in the first chunk that holds it |
| `Pipeline.KeptFirstAbsent` | main.go:147-153 | as written, a station that no chunk holds is not in the result |
| `Pipeline.AsWrittenDropsRepeatedChunk` | main.go:135-146 | as written, a chunk sent twice leaves the station's count from one copy, while the lines hold twice as many readings |
| `Scenarios.TwoStations` | main.go:84-122 | "A;10.0\nB;20.0\nA;30.0\n" gives A {10.0, 30.0, 40.0, 2} and B {20.0, 20.0, 20.0, 1} |
| `Scenarios.MalformedLineSkipped` | main.go:91-94 | "A;10.0\nbadline\nA;20.0\n" gives A {10.0, 20.0, 30.0, 2}; the bad line adds nothing |
| `Scenarios.NegativeValues` | main.go:102-120 | "A;-5.0\nA;5.0\n" gives A {-5.0, 5.0, 0.0, 2} |
| `Scenarios.EmptyInput` | main.go:84-155 | empty input gives an empty result, for both the corrected merge and the merge as written |

## Findings

| source | as written | input that shows it | evidently intended | confidence | as-written member | corrected member |
|---|---|---|---|---|---|---|
| main.go:135-146 | `result.Get` returns a copy of the stored `Summary` (the map holds values, main.go:129). The copy `val` gets the new min, max, sum and count, but is never stored with `result.Put`. A station already in `result` keeps the summary of the first partial map that brought it. | Two chunks, each `A;1\n`: the result has A with count 1, but the input has two readings (`Pipeline.AsWrittenDropsRepeatedChunk`) | `result.Put(station, val)` after the update, so each station's summary combines all partial maps (count = total readings, sum = total) | high; not executed | `Merge.MergeAsWritten` | `Merge.MergeCombined` |

## Left out

- Process glue in `main()` (main.go:26-46): CPU profiling, timing and `log.Fatalf`.
- The file open and the reader goroutine (main.go:49-69). Each chunk is any byte sequence. The model does not capture two reader behaviours. The reader ignores `Read`'s byte count, so the last chunk is padded with NUL bytes. It also treats non-EOF read errors like data.
- Goroutines, channels and `sync.WaitGroup` (main.go:55-57, 71-79, 124-131, 159-160). The sequence `chunks` is the order in which partial maps reach the merger.
- The race at main.go:159-162: the final iteration does not wait for the merger goroutine.
- The order of Go map iteration over a partial map. `MergeAsWritten` and `MergeCombined` pick the next station with a nondeterministic choice. Their contracts hold for every order.
- Printing the result and `Summary.Avg` (main.go:162-165, 179-181): output formatting and float division.
- `float64` arithmetic. This includes rounding of `Sum`, NaN (with NaN, the `>=`/`<=` updates are not min/max), infinities and negative zero.
- The `strconv.ParseFloat` grammar is library code. It is the parameter `parse`.
- Overflow of the 64-bit `int` `Count`: counts are unbounded integers.
- `bufio.Scanner`'s 64 KiB token limit. A longer line stops the scan of that chunk with an error that the code ignores.
- `swiss.Map` internals, such as hashing and resizing. The result map is a Dafny `map`.
- The `*Summary` pointers of `Places` (main.go:170). The worker updates an entry through its pointer. The model replaces the map entry with the updated value. Nothing else aliases these summaries.
- Pipeline.RunOrderIndependent: is proved only for swapping two neighbouring chunks. An arbitrary arrival order is a series of such swaps, but the model has no single lemma that states this.
- Scenarios.TwoStations: the station names and value texts are symbolic, and the values are tenths. The lemmas assume a parser that reads "10.0" as 100, and so on.
- Joining the two parts of a line cut by a chunk boundary: the code does not do it, so neither does the model. `Pipeline.CutLineIsLost`, `Pipeline.CutNameMisattributed` and `Pipeline.CutValueMisread` show what happens instead. `Pipeline.LineAlignedChunks` shows that chunks ending at line ends lose nothing.
