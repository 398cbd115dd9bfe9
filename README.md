# Storage-fragmentation workload, modelled in Dafny

This project models the fragmentation benchmark in
`StorageFragmentationTest` from the OrientDB reproducers. The benchmark
seeds a graph database with `VERTEX_COUNT` vertices, each holding text of
`INITIAL_TEXT_SIZE` characters. It keeps a cache `ids` of `(id, textSize)`
pairs. It then runs `DELETE_CREATE_OPS` random cycles of one of two
strategies, and measures the database folder before and after:

- replace: delete the picked vertex, then create a new one with the reduced
  text size;
- reuse: clear the picked vertex, then write the reduced text back into it.

The modules follow the parts of the program:

- `Config`: the test settings (lines 27-32) as one `Settings` record.
  `DEFAULT` holds the source's values. The two constants
  `INITIAL_TEXT_SIZE = 419431` and `TOMBSTONE_SIZE = 11` live here too.
- `Numerics`: Java's `Math.ceil`, `Math.max` and the `(int)` cast of a
  double, which truncates toward zero.
- `Reduction`: `reduceSize`.
- `HumanSize`: `toHumanSize` and a reader that parses its output back.
  `%5d` pads to width 5, so `toHumanSize(1023)` is `" 1023 Bytes"`.
- `SizeProbe`: `printDBSize`. The folder listing is a sequence of
  `(name, length)` entries. Each file goes to a bucket by its lower-cased
  `FilenameUtils.getExtension`.
- `Report`: the tombstone and effective-size arithmetic of
  `testFragmentation`.
- `Population`: `RecordInfo`, the random pick and one cycle of each
  strategy, all on values. The pick is one unconditional
  `ids.get((int)(Math.random() * ids.size()))`. `ReplaceRun` and `ReuseRun` give the cache after
  a whole run of draws, with its invariants.
- `Workload`: the test object as a class. Its fields are the settings, the
  `ids` cache, the lazily created `content`, the graph database and its
  fresh-id counter. The database is a map from vertex id to the length of
  the vertex's text, and the counter supplies new ids. The class has the
  seeding loop, `replaceVertices`, `reUseVertices`, `getRandomRecord`,
  `getData`, `addContent` and `testFragmentation`. Each loop method is
  proved against the value-level run functions and keeps the class
  invariant `Valid()`. `Valid()` says the following:
  - the cache lists every live vertex exactly once, with its text length;
  - every id is below the next fresh id;
  - every cached size lies in `[1, INITIAL_TEXT_SIZE]`, so `getData` never
    fails.

`Math.random()` becomes a parameter: each cycle gets one draw `u` with
`0 <= u < 1`. The folder listings and the WAL size become parameters as
well. `RandomStringUtils.randomAlphanumeric` becomes the constructor
argument `randomText`.

## Model

| member | source | states |
|---|---|---|
| Numerics.Ceil | src/test/java/com/gentics/odb/StorageFragmentationTest.java:142 | the result is the least integer not below `x` (`x <= r < x + 1`), as `(int) Math.ceil` is |
| Numerics.Trunc | src/test/java/com/gentics/odb/StorageFragmentationTest.java:145 | a cast of a double to `int`: the integer part, rounded toward zero for both signs |
| Numerics.Max | src/test/java/com/gentics/odb/StorageFragmentationTest.java:145 | `Math.max`: the result is at least each argument and equal to one of them |
| Config.InitialTextSizeIsCeil | src/test/java/com/gentics/odb/StorageFragmentationTest.java:27 | `INITIAL_TEXT_SIZE`, 419431, is the ceiling of `0.4 * 1024 * 1024` |
| Config.DefaultIsValid | src/test/java/com/gentics/odb/StorageFragmentationTest.java:28-32 | the source's settings (halving by multiplication, 5000 vertices, 50000 cycles) satisfy the settings invariant |
| Reduction.ReduceSize | src/test/java/com/gentics/odb/StorageFragmentationTest.java:140-146 | `reduceSize`; it is specified by HalvingReduction, SubtractiveReduction and ReduceSizeBounds |
| Reduction.HalvingReduction | src/test/java/com/gentics/odb/StorageFragmentationTest.java:140-143 | with multiplication by 0.5, `reduceSize(n)` is `(n + 1) / 2`; for `n >= 1` it lies in `[1, n]`; for `n >= 2` it is strictly less than `n` |
| Reduction.SubtractiveReduction | src/test/java/com/gentics/odb/StorageFragmentationTest.java:145 | the subtractive branch is `max(1, n - (int) REDUCTION)`; it is never below 1; for `0 <= REDUCTION < 1` it leaves every `n >= 1` unchanged |
| Reduction.ReduceSizeBounds | src/test/java/com/gentics/odb/StorageFragmentationTest.java:140-146 | under valid settings, either branch maps a size `n >= 1` into `[1, n]`: a reduction never grows a record and never empties it |
| HumanSize.Scale | src/test/java/com/gentics/odb/StorageFragmentationTest.java:228-236 | the unit choice and integer division of `toHumanSize`; it is specified by ScaleMeaning |
| HumanSize.ToHumanSize | src/test/java/com/gentics/odb/StorageFragmentationTest.java:224-239 | `toHumanSize`; it is specified by ScaleMeaning, PadLeft and HumanSizeRoundTrip, with the examples LastBytes, FirstKilobyte and FirstMegabyte |
| HumanSize.ScaleMeaning | src/test/java/com/gentics/odb/StorageFragmentationTest.java:224-236 | the unit is the largest of Bytes/KB/MB whose factor fits the size; the value is the number of whole units (`v * F <= size < (v + 1) * F`); a negative size stays unscaled in Bytes |
| HumanSize.PadLeft | src/test/java/com/gentics/odb/StorageFragmentationTest.java:238 | the `%5d` width: the result is the text right-justified in the width with leading spaces, and never truncated |
| HumanSize.DigitsRoundTrip | src/test/java/com/gentics/odb/StorageFragmentationTest.java:238 | the decimal digits written for `n` read back as `n` |
| HumanSize.ReadDecimalRoundTrip | src/test/java/com/gentics/odb/StorageFragmentationTest.java:238 | the decimal form of any integer, including a negative one, reads back as that integer |
| HumanSize.HumanSizeRoundTrip | src/test/java/com/gentics/odb/StorageFragmentationTest.java:224-239 | parsing `toHumanSize(size)` gives back exactly the scaled value and unit the thresholds choose, so the text determines them |
| HumanSize.LastBytes | src/test/java/com/gentics/odb/StorageFragmentationTest.java:228-229 | `toHumanSize(1023)` is `" 1023 Bytes"` |
| HumanSize.FirstKilobyte | src/test/java/com/gentics/odb/StorageFragmentationTest.java:230-232 | `toHumanSize(1024)` is `"    1 KB"` |
| HumanSize.FirstMegabyte | src/test/java/com/gentics/odb/StorageFragmentationTest.java:233-235 | `toHumanSize(1048576)` is `"    1 MB"` |
| SizeProbe.LastIndexOf | src/test/java/com/gentics/odb/StorageFragmentationTest.java:200 | the index of the last occurrence of a character, or -1 when it does not occur |
| SizeProbe.LowerMatchesIgnoringCase | src/test/java/com/gentics/odb/StorageFragmentationTest.java:200-207 | `toLowerCase` of a text equals a lower-case word such as `pcl` or `cpm` exactly when the two have the same length and every character is that word's letter in lower or in upper case |
| SizeProbe.ExtensionOfSuffix | src/test/java/com/gentics/odb/StorageFragmentationTest.java:200 | a name ending in `.` plus a text without dot or path separator has that text as its extension |
| SizeProbe.ExtensionIsSuffix | src/test/java/com/gentics/odb/StorageFragmentationTest.java:200 | a non-empty extension is the tail of the name that follows a dot |
| SizeProbe.BucketOf | src/test/java/com/gentics/odb/StorageFragmentationTest.java:200-211 | the `switch` on the lower-cased extension; it is specified by BucketBySuffix (with SuffixGivesBucket and BucketGivesSuffix) and BucketsPartition |
| SizeProbe.SuffixGivesBucket | src/test/java/com/gentics/odb/StorageFragmentationTest.java:200-207 | a name ending in `.pcl` (or `.cpm`), in any case, is counted as PCL (or CPM) |
| SizeProbe.BucketGivesSuffix | src/test/java/com/gentics/odb/StorageFragmentationTest.java:200-207 | a name counted as PCL (or CPM) ends in `.pcl` (or `.cpm`), in some case |
| SizeProbe.BucketBySuffix | src/test/java/com/gentics/odb/StorageFragmentationTest.java:200-211 | a file counts as PCL exactly when its name ends in `.pcl`, ignoring case, and as CPM exactly when it ends in `.cpm`, ignoring case |
| SizeProbe.BucketsPartition | src/test/java/com/gentics/odb/StorageFragmentationTest.java:198-221 | the PCL, CPM and other buckets add up to the sum of all file lengths: each file is counted in exactly one bucket |
| SizeProbe.PrintDbSize | src/test/java/com/gentics/odb/StorageFragmentationTest.java:191-222 | the loop leaves each bucket at the sum of the lengths of the files in it; the line shows the WAL size and the three buckets through `toHumanSize`; the result is the buckets' total, which equals the sum of all file lengths and leaves out the WAL size |
| SizeProbe.SizeLine | src/test/java/com/gentics/odb/StorageFragmentationTest.java:214-219 | the line `printDBSize` prints: the WAL, PCL, CPM and other sizes through `toHumanSize`; PrintDbSize ties it to the listing |
| Report.MakeReport | src/test/java/com/gentics/odb/StorageFragmentationTest.java:100-102 | the expected tombstone size is 11 bytes per deleted record; the effective size plus the tombstone size is the final size |
| Report.TombstoneAccounting | src/test/java/com/gentics/odb/StorageFragmentationTest.java:101-102 | with no deletions the effective size is the final size; each further deletion lowers it by 11 |
| Report.ReportExample | src/test/java/com/gentics/odb/StorageFragmentationTest.java:101-102 | 1000 deletions with a final size of 1200000 give a tombstone size of 11000 and an effective size of 1189000 |
| Population.RandomIndex | src/test/java/com/gentics/odb/StorageFragmentationTest.java:188 | `(int) (Math.random() * n)` for a draw in `[0, 1)` is a valid index in `[0, n)` |
| Population.RemoveFirst | src/test/java/com/gentics/odb/StorageFragmentationTest.java:124 | `ids.remove(info)`, also at line 160; RemoveFirstIsRemoveAt shows it removes exactly the picked entry |
| Population.ReplaceAt | src/test/java/com/gentics/odb/StorageFragmentationTest.java:124-129 | one replace cycle on the cache; it is specified by ReplaceAtEffect, TradeShrinks and ReplaceAtBelow |
| Population.ReuseAt | src/test/java/com/gentics/odb/StorageFragmentationTest.java:160-164 | one reuse cycle on the cache; it is specified by ReuseAtEffect and TradeShrinks |
| Population.RemoveFirstIsRemoveAt | src/test/java/com/gentics/odb/StorageFragmentationTest.java:124 | with distinct ids, `ids.remove(info)` for the entry at index `k` removes exactly the entry at `k` |
| Population.TradeEntry | src/test/java/com/gentics/odb/StorageFragmentationTest.java:124-129 | dropping one entry and appending one keeps the cardinality; as multisets, exactly one entry is traded for the new one |
| Population.IdsAfterTrade | src/test/java/com/gentics/odb/StorageFragmentationTest.java:124-129 | if the appended id is the dropped one or unused, the ids stay distinct and the id set changes by exactly that swap |
| Population.ReplaceAtEffect | src/test/java/com/gentics/odb/StorageFragmentationTest.java:115-131 | a replace cycle keeps `|ids|` and distinct ids; it retires the picked id and brings in the new one; every other entry is untouched (multiset) |
| Population.ReuseAtEffect | src/test/java/com/gentics/odb/StorageFragmentationTest.java:151-165 | a reuse cycle keeps `|ids|`, distinct ids and the set of ids; only the picked entry changes, to the same id with the reduced size |
| Population.TradeShrinks | src/test/java/com/gentics/odb/StorageFragmentationTest.java:117-129 | a cycle keeps every size in `[1, INITIAL_TEXT_SIZE]`; the total cached size changes by exactly the reduction and never grows |
| Population.TradeBelow | src/test/java/com/gentics/odb/StorageFragmentationTest.java:124-129 | dropping an entry and appending one below a bound keeps every id below it |
| Population.ReplaceAtBelow | src/test/java/com/gentics/odb/StorageFragmentationTest.java:127-129 | a new id above all cached ones is unused, and the next id stays above them all after the cycle |
| Population.ReplaceRun | src/test/java/com/gentics/odb/StorageFragmentationTest.java:115-131 | the cache after a run of replace cycles keeps its cardinality |
| Population.ReuseRun | src/test/java/com/gentics/odb/StorageFragmentationTest.java:151-165 | the cache after a run of reuse cycles keeps its cardinality |
| Population.ReplaceRunShrinks | src/test/java/com/gentics/odb/StorageFragmentationTest.java:115-131 | over any number of replace cycles, every size stays in `[1, INITIAL_TEXT_SIZE]` and the total cached size does not grow |
| Population.ReplaceRunFresh | src/test/java/com/gentics/odb/StorageFragmentationTest.java:115-131 | over any number of replace cycles, ids stay distinct and below the next fresh id |
| Population.ReplaceRunInvariant | src/test/java/com/gentics/odb/StorageFragmentationTest.java:115-131 | over any number of replace cycles: the cardinality is kept; ids stay distinct and fresh; sizes stay in range; the total does not grow |
| Population.ReuseRunInvariant | src/test/java/com/gentics/odb/StorageFragmentationTest.java:151-165 | over any number of reuse cycles: the ids stay distinct and form the same set; sizes stay in range; the total does not grow |
| Workload.StoreAfterTrade | src/test/java/com/gentics/odb/StorageFragmentationTest.java:121-129 | deleting the picked vertex and storing the new entry's vertex keeps the cache and the database in agreement |
| Workload.StoreAfterAppend | src/test/java/com/gentics/odb/StorageFragmentationTest.java:75-77 | creating a vertex under the next fresh id and appending it to the cache keeps the two in agreement, with the ids below the new next id |
| Workload.ReplaceCycle | src/test/java/com/gentics/odb/StorageFragmentationTest.java:116-129 | one replace cycle keeps the cache and the database consistent; the new size is in range |
| Workload.ReuseCycle | src/test/java/com/gentics/odb/StorageFragmentationTest.java:152-164 | one reuse cycle (the vertex's text cleared, then rewritten) keeps the cache and the database consistent, with no new id used |
| Workload.Seeded | src/test/java/com/gentics/odb/StorageFragmentationTest.java:72-77 | the seeding adds one entry per vertex |
| Workload.StorageFragmentationTest.constructor | src/test/java/com/gentics/odb/StorageFragmentationTest.java:39-62 | `setupDB`: an empty database, an empty cache and no content yet |
| Workload.StorageFragmentationTest.GetData | src/test/java/com/gentics/odb/StorageFragmentationTest.java:250-260 | creates `content` on first use; for `0 <= size <= INITIAL_TEXT_SIZE` it returns the prefix of `content` of exactly `size` characters; any other size makes `substring` throw (None) |
| Workload.StorageFragmentationTest.AddContent | src/test/java/com/gentics/odb/StorageFragmentationTest.java:241-248 | creates a vertex under the next fresh id whose text has exactly `size` characters; nothing else in the database changes |
| Workload.StorageFragmentationTest.GetRandomRecord | src/test/java/com/gentics/odb/StorageFragmentationTest.java:187-189 | returns a cached entry exactly when the cache is not empty; on an empty cache `get` throws (None) |
| Workload.StorageFragmentationTest.SeedVertices | src/test/java/com/gentics/odb/StorageFragmentationTest.java:72-84 | appends `VERTEX_COUNT` entries of the initial size under consecutive fresh ids and keeps the class invariant |
| Workload.StorageFragmentationTest.ReplaceVertices | src/test/java/com/gentics/odb/StorageFragmentationTest.java:110-138 | leaves the cache as the replace run over the draws; uses one fresh id per cycle; returns `DELETE_CREATE_OPS` deletions; keeps the invariant |
| Workload.StorageFragmentationTest.ReUseVertices | src/test/java/com/gentics/odb/StorageFragmentationTest.java:148-174 | leaves the cache as the reuse run over the draws; uses no fresh id; returns 0; keeps the invariant |
| Workload.StorageFragmentationTest.TestFragmentation | src/test/java/com/gentics/odb/StorageFragmentationTest.java:68-108 | the report is built from the two folder totals and the configured strategy's deletion count; the cache ends as that strategy's run over the seeded vertices |

## Left out

- The floating-point `factor` and its `%1.2f` output (lines 103, 106) are floating-point numerics and are not modelled.
- Console output is not modelled: the progress lines, the settings line, the warning in `getData` and the `printf` of `printDBSize`. The line `printDBSize` prints is returned as a string instead.
- The periodic `printDBSize()` call every 5000 cycles only prints, so the loops leave it out.
- OrientDB is a map from vertex id to text length plus a counter of fresh ids. The calls `getTx`, `getVertex`, `addVertex`, `remove`, `setProperty`, `commit`, `shutdown`, `Orient.instance().shutdown()` and `Thread.sleep` are not modelled.
- Failed commits are not modelled, so no exception path exists. In `replaceVertices` the entry is removed before the commit (line 124 vs 128) and the new entry added after it (line 129); in `reUseVertices` the entry is re-added before the commit (line 164 vs 165). That order matters only when a commit throws.
- The real ORIDs are not modelled; ids are integers from a counter.
- File-system I/O is not modelled: deleting and creating the folders, `listFiles` (which returns null if the folder is missing), `file.length()` and `sizeOfDirectory`. Folder listings and WAL sizes are inputs.
- `RandomStringUtils` is not modelled. Its output is the constructor's `randomText`, assumed alphanumeric and of the initial length.
- `Math.random()` is a sequence of draws in `[0, 1)`. Its uniform distribution is not modelled.
- Platform and locale are taken as Unix with ASCII digits: the `%n` of `printDBSize` is written as `"\n"`, and `%d` is not localized.
- Config.ValidSettings excludes settings the Java would still run with. A multiplicative factor of 0 writes empty texts. A negative factor makes `substring` throw. A factor above 1, or a subtractive step of -1 or less, grows sizes past the content length, so `substring` throws. The loop proofs need the invariant that sizes stay in `[1, INITIAL_TEXT_SIZE]`. The source's own settings are valid (`Config.DefaultIsValid`).
- Java's `int`/`long` overflow and the saturation of the `(int)` cast are not modelled, since integers are unbounded. The sizes involved stay far below those limits.
- `Reduction.ReduceSize` does not model `double` rounding of a general multiplicative factor, since the product is exact real arithmetic. With the source's 0.5 the double product is exact too.
- `SizeProbe.Lower` lower-cases ASCII letters only. No other character lower-cases to a letter of `pcl` or `cpm`, so the buckets are the same.
- `SizeProbe.GetExtension` follows `FilenameUtils.getExtension`: the text after the last dot, unless a `/` or `\` follows that dot. The NTFS alternate-stream check of newer Commons IO versions is not modelled.
- `Workload.StorageFragmentationTest.ReplaceVertices` and `ReUseVertices` require a non-empty cache (`VERTEX_COUNT > 0`). With an empty cache the first `getRandomRecord` throws, which `GetRandomRecord` models.
- `Workload.StorageFragmentationTest.TestFragmentation` requires the freshly set up database of `setupDB`, which is always the state a JUnit run starts from.
- `Workload.StorageFragmentationTest.GetRandomRecord` states only that the entry is cached. Which entry it is follows from `Population.RandomIndex` and the cycle lemmas.
- `clearVertex` is modelled as setting the vertex's text length to 0, since `text` is its only property. The loop over property keys is not modelled.
- `Database.java`, `AbstractClusterTest.java`, `AbstractOrientTest.java`, `LatchingDistributedLifecycleListener.java`, `Tinkerpop3IndexRegressionTest.java`, `ImportTest.java` and `OpenImportedTest.java` are not part of this model. They are server start-up, schema creation, concurrency and import against the external database.
