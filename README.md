# ELFT validation driver and random implementation, modelled in Dafny

This project models the core of NIST's Evaluation of Latent Friction Ridge
Technology (ELFT) 1.x validation package:

- the **validation driver** (`elft_validation.cpp`, `elft_validation_utils.h`):
  - workload sharding (`splitSet`, `randomizeIndicies`);
  - the reference template archive and its manifest;
  - message sanitizing;
  - the CSV row builders of the create, extract-data, search and
    search-with-correspondence logs;
  - the `waitForExit` loop over child processes;
- the **random example implementation** (`elft_randimpl.cpp`):
  - the template byte codec (`createTemplate`/`parseTemplate`);
  - the directory sharding of reference templates;
  - `writeTemplate`;
  - the multi-threaded `createReferenceDatabase`;
  - the candidate draw of `search`, with its slap finger remap;
  - the sub-template selection of `extractCorrespondence`;
- the **API support library** (`libelft.cpp`, `libelft_output.cpp/.h`):
  - `ReturnStatus` truth;
  - the `Coordinate` and `Candidate` orders;
  - the text renderings of enumerations, statuses, minutiae, cores,
    deltas, template data, search results, product identifiers and
    optionals.

Modules follow the source files:

| module | file | models |
|---|---|---|
| `Wrappers` | `wrappers.dfy` | `Option` and `Outcome` (a value, or the exception text raised). |
| `Elft` | `elft.dfy` | The API datatypes and enumerator codes of `elft.h`. |
| `Text` | `text.dfy` | `std::to_string`. |
| `Libelft` | `libelft.dfy` | `libelft.cpp`. |
| `ElftOutput` | `libelft_output.dfy` | `libelft_output.cpp/.h`. |
| `ValidationUtils` | `validation_utils.dfy` | `elft_validation_utils.h`. |
| `Csv` | `csv.dfy` | `sanitizeMessage`, and a CSV field reader used to count fields. |
| `LogCells` | `log_cells.dfy` | Cell-level facts about log rows. |
| `ResultLog` | `result_log.dfy` | The create, extract-data and reference-database logs. |
| `SearchLog` | `search_log.dfy` | The candidate and correspondence logs. |
| `Ranking` | `ranking.dfy` | The descending `stable_sort` of candidates. |
| `Sharding` | `sharding.dfy` | `splitSet` and `randomizeIndicies`. |
| `TemplateArchive` | `template_archive.dfy` | `makeReferenceTemplateArchive`. |
| `WaitForExit` | `wait_for_exit.dfy` | `waitForExit`. |
| `RandTemplate` | `rand_template.dfy` | The randimpl codec and directory layout. |
| `ReferenceDatabase` | `reference_database.dfy` | `writeTemplate` and `createReferenceDatabase`. |
| `RandSearch` | `rand_search.dfy` | `search` and `extractCorrespondence`. |

How the model represents things:

- **Values and state.**
  - Every operation of the source that loops over its input is a `method` with loop invariants.
  - Each method is proved equal to a specification function, and the lemmas state the promised properties of that function.
  - State the source changes (the file system, the RNG position) is passed in and returned as a value.
  - `lower` works in place on an `array<char>`.
- **Exceptions.** The `Outcome` datatype carries them: `Raised(what)` is a thrown exception with its text.
- **Enumerations.** They are their underlying integers, because a C++ enumeration may hold any value of that type. The renderings have an `[ERROR]` branch for the undeclared ones.
- **Randomness.** `std::mt19937_64` is an infinite stream of draws, `nat -> nat`, read through a cursor. The model applies the source's own reductions (`% 255`, `% 4`, `% 65535`, …).
- **The file system.**
  - It is a map from paths (sequences of components) to `File(bytes)` or `Dir`.
  - `Valid` asks every file and directory's parent to be a directory.
- **Concurrency.**
  - The worker threads of `createReferenceDatabase` run one after another, in launch order.
  - `ThreadsAgreeWithOnePass` proves that the outcome equals one pass over the whole map.

## Model

| member | source | states |
|---|---|---|
| Sharding.SplitSet | elft_1_x/validation/src/elft_validation.cpp:1081-1108 | Zero sets gives nothing. One set gives the input. For two or more it throws exactly when `ceil(n/k) < k`; otherwise the result is the `k` slices `[s*i, min(s*(i+1), n))` and the last slice starts inside the input. |
| Sharding.SlicesPartition | elft_1_x/validation/src/elft_validation.cpp:1097-1105 | Past the guard there are exactly `numSets` slices, each non-empty and at most `ceil(n/numSets)` long, and concatenated in order they are the input. |
| Sharding.GuardBounds | elft_1_x/validation/src/elft_validation.cpp:1090-1105 | Past the guard the last slice starts before the end and the slices reach the end, so every iterator is in range. |
| Sharding.GuardStricterThanDocumented | elft_1_x/validation/src/elft_validation.h:416-417 | The guard refuses more than the documented condition does: ten elements in four sets throw. |
| Sharding.CeilDiv | elft_1_x/validation/src/elft_validation.cpp:1090-1093 | The size is the least `s` with `s*k >= n`. |
| Sharding.RandomizeIndices | elft_1_x/validation/src/elft_validation.cpp:515-523 | After any sequence of swaps the result has length `size`, is a permutation of `0..size-1`, and holds exactly those values. |
| Sharding.IotaPermutationUnique | elft_1_x/validation/src/elft_validation.cpp:515-523 | A permutation of `0..size-1` holds each index exactly once, with no repetition. |
| Csv.SanitizeMessage | elft_1_x/validation/src/elft_validation.cpp:1047-1078 | The result equals `Sanitized`, covering the empty message, the optional quote escaping and the optional wrapping. |
| Csv.BlankUnprintable | elft_1_x/validation/src/elft_validation.cpp:1058-1064 | The restart-from-the-start loop blanks exactly the unprintable characters, one for one. |
| Csv.Cleaned | elft_1_x/validation/src/elft_validation.cpp:1058-1064 | Same length; each character is kept when graphical or space, and becomes a space otherwise. |
| Csv.EscapeEachQuote | elft_1_x/validation/src/elft_validation.cpp:1067-1076 | The find-and-replace loop, resuming after each insertion, escapes every quote exactly once. |
| Csv.EscapeQuotesLength | elft_1_x/validation/src/elft_validation.cpp:1067-1076 | Escaping adds one character per quote. |
| Csv.SanitizedField | elft_1_x/validation/src/elft_validation.cpp:1052-1077 | The output length is `n + #quotes + 2`. The empty message gives `""`. A message without backslashes becomes exactly one CSV field. |
| Csv.TrailingBackslashOpensField | elft_1_x/validation/src/elft_validation.cpp:1067-1077 | Backslashes are not escaped, so a message ending in one leaves its field open. |
| Csv.Find | elft_1_x/validation/src/elft_validation.cpp:1067-1068 | `std::string::find` returns the first occurrence at or after `from`, or the end. |
| ValidationUtils.Lower | elft_1_x/validation/src/elft_validation_utils.h:93-102 | The in-place loop leaves the array equal to `Lowered` of its old contents. |
| ValidationUtils.LoweredProperties | elft_1_x/validation/src/elft_validation_utils.h:93-102 | No capital letter remains, every other character is kept, and lowering is idempotent. |
| ValidationUtils.Splice | elft_1_x/validation/src/elft_validation_utils.h:231-241 | The render-append-erase loop of every `splice` overload equals `SpliceResult` of the renderings. |
| ValidationUtils.SpliceIsJoin | elft_1_x/validation/src/elft_validation_utils.h:231-241 | `splice` throws exactly on an empty vector or an empty separator. Otherwise it is the join plus the separator minus its last character, which is exactly the join for a one-character separator. |
| ValidationUtils.SpliceOfNas | elft_1_x/validation/src/elft_validation_utils.h:231-241 | `splice(vector(n, NA), ",")` is `n` NAs separated by commas. |
| ValidationUtils.ElementFieldsShape | elft_1_x/validation/src/elft_validation_utils.h:116-217 | The splice element renderings contain no `,`, `"`, `\|`, `\` or line break. They hold 2 `;`-separated members for a coordinate, 4 for a minutia, 3 for a core, and 3 or 6 for a delta depending on its direction tuple. |
| ValidationUtils.NaIsNotANumber | elft_1_x/validation/src/elft_validation_utils.h:21 | `NA` never equals a rendered integer (`ts`, `e2i2s`) or boolean. |
| ValidationUtils.IntToStringNumeral | elft_1_x/validation/src/elft_validation_utils.h:53-61 | `ts` of an integer is an optional minus sign followed by decimal digits. |
| Text.DecimalRoundTrip | elft_1_x/validation/src/elft_validation_utils.h:53-61 | Reading the decimal rendering back gives the number. |
| Text.IntToStringInjective | elft_1_x/validation/src/elft_validation_utils.h:53-61 | Two integers render the same exactly when they are equal. |
| ResultLog.HeaderWidths | elft_1_x/validation/src/elft_validation.cpp:630-714 | The headers have 7 (create), 21 (extract data), 11 (candidates) and 16 (correspondence) fields; the database header at line 595 has 4. |
| ResultLog.MessageCellIsCell | elft_1_x/validation/src/elft_validation.cpp:1047-1078 | The sanitized message cell is on one line, and is one field when the message holds no backslash. |
| ResultLog.PrepareSamples | elft_1_x/validation/src/elft_validation.cpp:831-867 | The metadata-checking loop equals `Samples`: the first failing check's exception, or one sample per entry. |
| ResultLog.SamplesChecked | elft_1_x/validation/src/elft_validation.cpp:831-867 | Every sample passed to `createTemplate` passed the checks, one per metadata entry. |
| ResultLog.PerformCreate | elft_1_x/validation/src/elft_validation.cpp:822-901 | A failed sample check raises before anything is written. Otherwise the row is `CreateRow` of the implementation's result, and the file written holds the template on success and is empty otherwise. |
| ResultLog.CreateRowWidth | elft_1_x/validation/src/elft_validation.cpp:884-887 | A creation row has the header's 7 fields on one line, and its size cell is `NA` exactly when creation did not succeed. |
| ResultLog.NaRow | elft_1_x/validation/src/elft_validation.cpp:768-773 | A failure row is the prefix followed by `n` `NA` cells. |
| ResultLog.PerformExtractData | elft_1_x/validation/src/elft_validation.cpp:743-819 | The log entry equals `ExtractDataLines`: one `NA` row on failure, else one row per template datum, with the last line break dropped. |
| ResultLog.JoinRows | elft_1_x/validation/src/elft_validation.cpp:777-817 | The row-and-line-break loop, stopping at the first exception and then dropping the last break, equals the rows joined by line breaks. |
| ResultLog.DataRowWidth | elft_1_x/validation/src/elft_validation.cpp:777-814 | Each extracted-data row has the header's 21 fields on one line. |
| ResultLog.ExtractDataShape | elft_1_x/validation/src/elft_validation.cpp:765-817 | An entry has one row on failure and one row per datum otherwise, each with 21 fields on one line. |
| ResultLog.DataRowRaises | elft_1_x/validation/src/elft_validation.cpp:793-811 | A row raises exactly when its EFS has a present but empty vector, because `splice` throws on it. |
| ResultLog.ExitCode | elft_1_x/validation/src/elft_validation.cpp:606 | The exit status is `EXIT_SUCCESS` exactly when the status holds. |
| ResultLog.DatabaseRowAsWrittenSplits | elft_1_x/validation/src/elft_validation.cpp:600-602 | As written, a message holding `","` gives a 5-field row under the 4-field header. |
| ResultLog.DatabaseRowWidth | elft_1_x/validation/src/elft_validation.cpp:600-602 | With the message sanitized, the row always has the header's 4 fields on one line, and it equals the row as written when the message is plain. |
| SearchLog.Sorted | elft_1_x/validation/src/elft_validation.cpp:942-945 | When the search is logged with candidates, the returned list is a permutation sorted by descending candidate order; otherwise the result is untouched. |
| SearchLog.PerformSearch | elft_1_x/validation/src/elft_validation.cpp:904-962 | The returned result is `Sorted`, and the log is `SearchLines` joined by line breaks. |
| SearchLog.RankRows | elft_1_x/validation/src/elft_validation.cpp:947-955 | The candidate loop writes the ranked rows with a line break between each pair of rows. |
| SearchLog.SearchOrderFree | elft_1_x/validation/src/elft_validation.cpp:942-955 | Neither the log nor the sorted result depends on the order in which the implementation listed its candidates. |
| SearchLog.SearchRanksBySimilarity | elft_1_x/validation/src/elft_validation.cpp:942-955 | A higher rank never has a lower similarity. |
| SearchLog.SearchShape | elft_1_x/validation/src/elft_validation.cpp:937-959 | The log has one row per candidate on success, one `NA` row otherwise, and every row has 11 fields on one line. |
| SearchLog.PerformSearchExtract | elft_1_x/validation/src/elft_validation.cpp:965-1044 | The log equals `CorrespondenceLog`: an `NA` row on failure, an exception on a count mismatch, else one row per pair with the last break dropped. |
| SearchLog.AppendVector | elft_1_x/validation/src/elft_validation.cpp:1023-1037 | The inner loop appends one row and one line break per pair of the vector. |
| SearchLog.CorrespondenceLinesAreRows | elft_1_x/validation/src/elft_validation.cpp:1018-1038 | Each row is the row of the `j`-th pair of the candidate ranked `i`. |
| SearchLog.CorrespondenceShape | elft_1_x/validation/src/elft_validation.cpp:1000-1041 | It raises exactly on a successful extraction whose vector count differs from the candidate count. Otherwise there is one row per pair on success and one row on failure, each with 16 fields on one line. |
| Ranking.SortDescending | elft_1_x/validation/src/elft_validation.cpp:944-945 | The sort returns a permutation of its input, ordered by descending `Candidate` order. |
| Ranking.SortedIsUnique | elft_1_x/libelft/libelft.cpp:74-137 | Two descending lists with the same candidates are equal, so stability cannot be observed. |
| Libelft.StatusConversion | elft_1_x/libelft/libelft.cpp:54-59 | A status is true exactly when its result is Success; the default status is true. |
| Libelft.CoordinateOrder | elft_1_x/libelft/libelft.cpp:149-207 | `==` is member equality and `<` is lexicographic on (x, y). Exactly one of `<`, `==`, `>` holds, `>` and `>=` are the converses, and `<` is transitive. |
| Libelft.CandidateTrichotomy | elft_1_x/libelft/libelft.cpp:74-137 | `==` is equality of all three members, exactly one of `<`, `==`, `>` holds, and `>` and `>=` are the converses. |
| Libelft.CandidateLessTransitive | elft_1_x/libelft/libelft.cpp:92-113 | Candidate `<` is transitive. |
| ElftOutput.ImpressionNames | elft_1_x/libelft_output/libelft_output.cpp:19-46 | Each declared impression has its own name, and every other value renders `[ERROR]`. |
| ElftOutput.CaptureTechnologyNames | elft_1_x/libelft_output/libelft_output.cpp:49-72 | The same, for capture technology. |
| ElftOutput.FrgpNames | elft_1_x/libelft_output/libelft_output.cpp:75-168 | The same, for friction ridge positions. |
| ElftOutput.ProcessingMethodNames | elft_1_x/libelft_output/libelft_output.cpp:171-196 | The same, for processing methods. |
| ElftOutput.PatternClassificationNames | elft_1_x/libelft_output/libelft_output.cpp:199-224 | The same, for pattern classifications. |
| ElftOutput.ValueAssessmentNames | elft_1_x/libelft_output/libelft_output.cpp:227-240 | The same, for value assessments. |
| ElftOutput.SubstrateNames | elft_1_x/libelft_output/libelft_output.cpp:243-274 | The same, for substrates. |
| ElftOutput.RidgeQualityNames | elft_1_x/libelft_output/libelft_output.cpp:277-296 | The same, for ridge qualities. |
| ElftOutput.ResultNames | elft_1_x/libelft_output/libelft_output.cpp:309-320 | Success and Failure have distinct names, and every other value renders `[ERROR]`. |
| ElftOutput.MinutiaTypeNames | elft_1_x/libelft_output/libelft_output.cpp:330-345 | The same, for minutia types. |
| ElftOutput.ReturnStatusText | elft_1_x/libelft_output/libelft_output.cpp:299-306 | The text starts with `Result: <name>` and ends with `, Message: <m>` exactly when a message is present. |
| ElftOutput.CoordinateTextRoundTrip | elft_1_x/libelft_output/libelft_output.cpp:323-327 | `(x,y)` parses back to the coordinate. |
| ElftOutput.AngleText | elft_1_x/libelft_output/libelft_output.cpp:351-352 | An angle is its decimal, followed by the invalid flag exactly when it exceeds 359. |
| ElftOutput.DirectionText | elft_1_x/libelft_output/libelft_output.cpp:360-362 | An absent direction is `<# EMPTY #>`; a present one is flagged exactly when over 359. |
| ElftOutput.MinutiaText | elft_1_x/libelft_output/libelft_output.cpp:348-354 | `[(x,y),theta...` with the flag right after theta exactly when theta exceeds 359. |
| ElftOutput.CoreText | elft_1_x/libelft_output/libelft_output.cpp:357-363 | The flag ends the text exactly when the direction is present and over 359; an absent direction renders `<# EMPTY #>`. |
| ElftOutput.DeltaText | elft_1_x/libelft_output/libelft_output.cpp:366-396 | A present tuple renders as the coordinate followed by the three `DirectionText`s in order, each `<# EMPTY #>` exactly when absent and flagged exactly when over 359. The text opens with the coordinate and closes with the third direction. It ends with the flag exactly when the third direction is present and over 359, and with `<# EMPTY #>` when the third direction or the whole tuple is absent. |
| ElftOutput.DeltaTextAbsentTuple | elft_1_x/libelft_output/libelft_output.cpp:366-396 | A delta without a direction tuple renders exactly like one whose three directions are absent. |
| ElftOutput.TemplateDataToString | elft_1_x/libelft_output/libelft_output.cpp:409-427 | The EFS-line loop builds `TemplateDataText`. |
| ElftOutput.TemplateDataQualityFlag | elft_1_x/libelft_output/libelft_output.cpp:420-424 | With a quality present, the text ends with the invalid flag exactly when it exceeds 100. |
| ElftOutput.SearchResultToString | elft_1_x/libelft_output/libelft_output.cpp:438-456 | The candidate loop builds `SearchResultText`. |
| ElftOutput.SearchResultEnding | elft_1_x/libelft_output/libelft_output.cpp:438-456 | The text ends with `[NO CANDIDATES]` exactly when the list is empty, and otherwise with the decision. |
| ElftOutput.CreateTemplateResultText | elft_1_x/libelft_output/libelft_output.cpp:507-514 | The text starts with the status and carries the template size exactly on success. |
| ElftOutput.ProductIdentifierSeparatorInverted | elft_1_x/libelft_output/libelft_output.cpp:472-485 | As written, marketing name plus CBEFF reads like a longer marketing name alone, and a lone CBEFF gets a leading `, `. |
| ElftOutput.ProductIdentifierTextJoins | elft_1_x/libelft_output/libelft_output.cpp:472-485 | Corrected: the present members joined by `, `. |
| ElftOutput.OptionalArithmeticInjective | elft_1_x/libelft_output/libelft_output.h:96-108 | An optional arithmetic value renders `<# NOT SET #>` only when absent, and distinct values render distinctly. |
| TemplateArchive.Extension | elft_1_x/validation/src/elft_validation.cpp:328-330 | The extension is empty or a `.` followed by no other period, and it is a proper suffix of the name. |
| TemplateArchive.MakeReferenceTemplateArchive | elft_1_x/validation/src/elft_validation.cpp:298-375 | It raises if the archive or then the manifest exists; otherwise it returns the archive bytes and the manifest text of `Archive`. |
| TemplateArchive.ArchiveStep | elft_1_x/validation/src/elft_validation.cpp:326-374 | A selected file is appended at the archive's current length, with the line `(name, size, offset)`; other files are skipped. |
| TemplateArchive.ArchiveIsConcatenation | elft_1_x/validation/src/elft_validation.cpp:326-374 | The archive is the concatenation of the selected files, and the manifest describes them with running offsets. |
| TemplateArchive.ArchiveRoundTrip | elft_1_x/validation/src/elft_validation.cpp:357-370 | Slicing the archive at each manifest entry gives back the file that entry names. |
| WaitForExit.WaitForExit | elft_1_x/validation/src/elft_validation.cpp:1240-1274 | The loop equals `Reap` over the sequence of `wait()` outcomes, and returns at once with no children. |
| WaitForExit.ReapReturned | elft_1_x/validation/src/elft_validation.cpp:1240-1274 | It returns only right after ECHILD, or at once when the count already matches, with the reaped count equal to the expected one modulo 256 and only exits and EINTR before. |
| WaitForExit.ReapThrew | elft_1_x/validation/src/elft_validation.cpp:1240-1274 | It throws only on an error other than ECHILD and EINTR that actually occurred. |
| WaitForExit.EarlyEchildSpins | elft_1_x/validation/src/elft_validation.cpp:1240-1274 | ECHILD before all children are counted never ends the loop. |
| RandTemplate.CreateTemplate | elft_1_x/randimpl/elft_randimpl.cpp:249-297 | The result is `CreateTemplateSpec`. It succeeds exactly when every sample has an image or an EFS, and fails with no data otherwise. |
| RandTemplate.ParseTemplate | elft_1_x/randimpl/elft_randimpl.cpp:98-121 | On well-formed data it equals `ParseTemplateSpec`: the identifier up to its NUL, then one record per turn of the do-while loop. |
| RandTemplate.ReadRecords | elft_1_x/randimpl/elft_randimpl.cpp:110-118 | The do-while loop reads exactly `ParseFrom` of the data. |
| RandTemplate.CreateThenParse | elft_1_x/randimpl/elft_randimpl.cpp:249-294 | Round trip: the created data is well formed and parses to one record per sample, in order, with the identifier, the input id, the position and the drawn size `rng() % 255`. |
| RandTemplate.DirectoryForIdentifierSpells | elft_1_x/randimpl/elft_randimpl.cpp:26-43 | Identifiers of 8 characters or fewer get one directory; longer ones get four two-character directories spelling the first eight characters. |
| RandTemplate.WriterAndReaderAgree | elft_1_x/randimpl/elft_randimpl.cpp:26-51 | A created template is written exactly where the search reads that identifier, and nowhere another identifier is read. |
| ReferenceDatabase.CreateDirectoriesEffect | elft_1_x/randimpl/elft_randimpl.cpp:164-168 | Creating directories keeps the file system valid, makes the directory exist, changes nothing existing, and adds only directories on the path. |
| ReferenceDatabase.WriteTemplateEffect | elft_1_x/randimpl/elft_randimpl.cpp:150-186 | A non-directory at the path is a Failure that changes nothing. On success the file holds exactly the template, and only that file and the directories on its path change. |
| ReferenceDatabase.LoadManifest | elft_1_x/randimpl/elft_randimpl.cpp:399-409 | The manifest loop builds `ManifestMap`. |
| ReferenceDatabase.ManifestLastWins | elft_1_x/randimpl/elft_randimpl.cpp:399-409 | An identifier is in the map exactly when some line names it, and it maps to the last such line. |
| ReferenceDatabase.ShortTemplateNotLoadable | elft_1_x/randimpl/elft_randimpl.cpp:104-118 | A manifest line with fewer than four bytes, such as a failed creation's zero-byte template, that no later line overrides makes the archive unloadable: `parseTemplate` would read past its end. |
| ReferenceDatabase.Filled | elft_1_x/include/elft.h:987-993 | The manifest without zero-byte templates holds exactly the entries with a nonzero length. |
| ReferenceDatabase.FilledLoadable | elft_1_x/include/elft.h:987-993 | Once the zero-byte templates are skipped, the archive is loadable whenever every created template is well formed. |
| ReferenceDatabase.ThreadWrite | elft_1_x/randimpl/elft_randimpl.cpp:421-457 | A worker's loop equals `ThreadWriteSpec`: write each key's slice of the archive, stopping at the first failure. |
| ReferenceDatabase.RunAppend | elft_1_x/randimpl/elft_randimpl.cpp:421-457 | After a failing prefix nothing more runs; after a successful one the rest runs on what it left. |
| ReferenceDatabase.ThreadWriteWritesAll | elft_1_x/randimpl/elft_randimpl.cpp:421-457 | A successful worker has written every template of its chunk byte for byte at its path, and left everything else unchanged. |
| ReferenceDatabase.ChunksPartition | elft_1_x/randimpl/elft_randimpl.cpp:470-490 | The `numCores` chunks, in order, are exactly the map's iteration order. All but the last have `n / numCores` entries; the last takes the remainder. |
| ReferenceDatabase.FirstOverflow | elft_1_x/randimpl/elft_randimpl.cpp:476-479 | The first thread whose `(i + 1) * tmplPerThread` exceeds PTRDIFF_MAX, or `numCores` when there is none. |
| ReferenceDatabase.NoOverflowForRealMaps | elft_1_x/randimpl/elft_randimpl.cpp:477-479 | With at most PTRDIFF_MAX entries the size check never fires. |
| ReferenceDatabase.LaunchWorkers | elft_1_x/randimpl/elft_randimpl.cpp:476-490 | One worker per chunk until the size check fails; the launched workers run to completion. |
| ReferenceDatabase.CollectStatuses | elft_1_x/randimpl/elft_randimpl.cpp:492-508 | The collecting loop over the futures equals `Collect`. |
| ReferenceDatabase.CollectStates | elft_1_x/randimpl/elft_randimpl.cpp:492-508 | The first thread exception is rethrown. Otherwise the result is Failure exactly when some thread failed, and the message is the last thread's, as `Thread i: message`. |
| ReferenceDatabase.ThreadsAgreeWithOnePass | elft_1_x/randimpl/elft_randimpl.cpp:463-508 | The workers together succeed exactly when one pass over the whole map succeeds, and they leave the same file system. |
| ReferenceDatabase.SpaceCheck | elft_1_x/randimpl/elft_randimpl.cpp:380-386 | The budget test refuses exactly when `10 * (maxSize + 1) <= 11 * n`. |
| ReferenceDatabase.CreateReferenceDatabase | elft_1_x/randimpl/elft_randimpl.cpp:360-511 | The method equals `CreateReferenceDatabaseSpec`. |
| ReferenceDatabase.CreateReferenceDatabaseRefuses | elft_1_x/randimpl/elft_randimpl.cpp:367-386 | An archive that cannot be opened or sized, or too little space, gives Failure with the source's message and changes nothing. |
| ReferenceDatabase.CreateReferenceDatabaseCases | elft_1_x/randimpl/elft_randimpl.cpp:463-508 | Small archives are one pass; large ones are `numCores` workers whose statuses are collected. |
| ReferenceDatabase.SucceedsAsOnePass | elft_1_x/randimpl/elft_randimpl.cpp:360-511 | It succeeds only with an archive in hand, and then exactly as one pass of `threadWrite` over the whole map. |
| ReferenceDatabase.DatabaseBuilt | elft_1_x/randimpl/elft_randimpl.cpp:360-511 | On success every manifest template is written byte for byte where the search reads it, and nothing else that existed has changed. |
| RandSearch.SlapFingerAsWritten | elft_1_x/randimpl/elft_randimpl.cpp:593-610 | The switch as written reports only fingers `RemapsAsWritten` allows: 2..5 for RightFour, 7..10 for LeftFour, 5 or 6 for the two-thumb slap, the position itself otherwise. |
| RandSearch.SlapFingerAsWrittenOnto | elft_1_x/randimpl/elft_randimpl.cpp:593-610 | Every finger `RemapsAsWritten` allows is reported for some draw, so the switch as written reports exactly those fingers. |
| RandSearch.SlapFinger | elft_1_x/randimpl/elft_randimpl.cpp:604-607 | The corrected switch (the two-thumb slap reported as thumb 1 or 6) reports only fingers the template's slap holds (`Remaps`). |
| RandSearch.SlapFingerOnto | elft_1_x/randimpl/elft_randimpl.cpp:604-607 | Every finger `Remaps` allows is reported by the corrected switch for some draw. |
| RandSearch.ThumbsAsWrittenLeaveTheSlap | elft_1_x/randimpl/elft_randimpl.cpp:604-607 | As written, a two-thumb slap is reported as finger 5 (right little) or 6; an even draw gives a finger the slap does not hold; the two switches agree on every other position. |
| RandSearch.Search | elft_1_x/randimpl/elft_randimpl.cpp:575-632 | The candidates are `Picks` with the switch as written over the listed files; every candidate can be looked up; the decision is the next draw; the attached correspondence is that of the unsorted list. |
| RandSearch.DrawCandidates | elft_1_x/randimpl/elft_randimpl.cpp:584-618 | The file loop (parse each file, draw its candidate, stop at `maxCandidates`) equals `Picks` with the switch as written. |
| RandSearch.DrawOne | elft_1_x/randimpl/elft_randimpl.cpp:589-614 | The draws for one file (template, finger for a slap with `(rng() % 2) + 5` for the two thumbs, similarity) equal `Draw` with the switch as written. |
| RandSearch.PicksProperties | elft_1_x/randimpl/elft_randimpl.cpp:584-618 | For either switch, there is one candidate per file, in file order, stopping at `maxCandidates` unless it is 0, and each candidate is drawn from its own file with a finger that switch reports. |
| RandSearch.Draw | elft_1_x/randimpl/elft_randimpl.cpp:589-614 | A candidate carries the drawn template's identifier and a finger the switch reports for that template, with a similarity below 65535; the cursor moves past three draws for a slap and two otherwise. |
| RandSearch.ExtractCorrespondence | elft_1_x/randimpl/elft_randimpl.cpp:635-731 | The status is always Success, and the vectors are `Correspondences` of the candidates. |
| RandSearch.AllSlaps | elft_1_x/randimpl/elft_randimpl.cpp:650-661 | The first loop decides whether every sub-template is a slap (13-15). |
| RandSearch.SelectAndDraw | elft_1_x/randimpl/elft_randimpl.cpp:663-725 | The second loop selects the first matching sub-template and draws its pairs, or yields no vector. |
| RandSearch.FirstSelected | elft_1_x/randimpl/elft_randimpl.cpp:663-685 | The first sub-template that the selection rule picks, or the end. |
| RandSearch.CorrespondenceCount | elft_1_x/randimpl/elft_randimpl.cpp:644-726 | There is at most one vector per candidate, and exactly one each exactly when every candidate's reference has a selected sub-template. |
| RandSearch.CorrespondenceRanges | elft_1_x/randimpl/elft_randimpl.cpp:687-722 | Every pair is drawn in range: fewer than 255 per vector, coordinates below 1000, probe angle below 360, reference angle below 16. |
| RandSearch.ThumbsAsWrittenLoseVector | elft_1_x/randimpl/elft_randimpl.cpp:604-607 | As written, a reference holding only a two-thumb slap gets no vector for a draw of finger 5; with the corrected switch it always gets one. |
| RandSearch.SearchAsWrittenLosesVector | elft_1_x/randimpl/elft_randimpl.cpp:575-731 | As written, a database of one file holding only a two-thumb slap, with an even finger draw, gives a candidate of finger 5 and no vector for it. |
| RandSearch.MixedReferenceLosesVector | elft_1_x/randimpl/elft_randimpl.cpp:644-685 | A reference holding a RightFour slap and a single right index finger is not uniform, and the candidate of finger 3 that the corrected switch draws from the slap gets no vector. |
| RandSearch.SearchThenExtract | elft_1_x/randimpl/elft_randimpl.cpp:575-731 | With the corrected switch, on a database whose files are filed templates that each hold only slaps or no slaps (`Uniform`), the candidates drawn by `search`, in any order, get exactly one vector each: the count the driver demands. |

## Left out

- Stream and file I/O. Opening, reading and writing files, and their failure branches, are not modelled; `readFile` and the directory listings are parameters. The `Unable to write` branch of `writeTemplate` is not modelled.
- The run drivers. `runCreate…`/`runSearch…` only fork, loop over shards and call the `performSingle…` functions. `parseArguments`, `testOperation`, `dispatchOperation` and the identification printing are not modelled.
- ReferenceDatabase.CreateReferenceDatabase: threads run sequentially in launch order, with no interleaving, because Dafny has no threads. `ThreadsAgreeWithOnePass` shows that these sequential workers, in launch order, equal one pass over the map in that same order.
- ReferenceDatabase.CreateReferenceDatabase: the map's iteration order is a parameter `order` that enumerates its keys once. `std::unordered_map`'s order is implementation-defined.
- ReferenceDatabase.CreateReferenceDatabase: requires `numCores >= 1`. The source's `hardware_concurrency() - 1` is 0 on a one-core machine, which divides by zero.
- ReferenceDatabase.SpaceCheck: the `double` product `1.1 * size` is modelled as the exact `(11 * size) / 10`, because floating point is not modelled.
- ReferenceDatabase.CreateReferenceDatabase: requires every template that survives the size check to be well formed (`Loadable`). This excludes empty or malformed entries, including the zero-byte template the driver writes for a failed creation (`elft_validation.cpp` line 896), on which the source reads past the end. `ShortTemplateNotLoadable` shows the exclusion. The same precondition holds for `ThreadWrite`, `ThreadWriteWritesAll`, `LaunchWorkers`, `ThreadsAgreeWithOnePass`, `CreateReferenceDatabaseCases`, `SucceedsAsOnePass` and `DatabaseBuilt`. `FilledLoadable` shows that the build is well defined once zero-byte templates are skipped.
- ReferenceDatabase.LoadManifest: the manifest is given already tokenised; parsing text with `stoll` is not modelled.
- RandTemplate.ParseTemplate: requires well-formed data, because the source does no bounds checks and reads past the end otherwise.
- ResultLog.PerformExtractData: requires a successful result to carry some template data. With none, the line is empty, and `pop_back` on it is undefined.
- SearchLog.PerformSearchExtract: requires a successful extraction whose vector count matches the candidates to carry at least one pair (`AnyPair`). With none, the line is empty, and `pop_back` on it is undefined.
- RandTemplate.CreateTemplate: the `extractTemplateData` call that fills `extractedData`, and its draws of made-up minutiae, are not modelled. The template bytes do not depend on it.
- Sharding.RandomizeIndices: the `std::shuffle` with `mt19937_64` is modelled as an arbitrary sequence of swaps. Which permutation results is not modelled.
- Sharding.SplitSet: `ceil` computed in `float` is modelled as exact integer ceiling. For sets above 2^24 elements the float may round.
- Randomness: `mt19937_64` is any stream of draws; the generator's output sequence is not modelled.
- Time: `duration(start, stop)` is an integer parameter `elapsed`. Similarity is an integer, as randimpl draws it; its `to_string` of a `double` adds `.000000`.
- Implementation exceptions are not modelled. The implementation's results are parameters of the row builders, so an implementation that throws cannot be expressed. The driver's catch-and-rethrow around `search` and `extractCorrespondence` (`elft_validation.cpp` lines 924-932 and 983-991), with its wrapped message, is left out.
- Text encoding: strings are sequences of characters (code points). The UTF-8 bytes of a `std::string` are not modelled. `Csv.Printable` tests characters, not bytes, so a two-byte character such as `é` becomes one space in `Cleaned` where the source writes two. `RandTemplate.ByteOfChar` keeps the low byte of each character, where the source writes every byte of the identifier. For ASCII text the two agree.
- RandSearch.SearchThenExtract: holds only for references that hold only slaps or no slaps (`Uniform`). `createTemplate` accepts a reference that mixes a slap with single fingers, and `extractCorrespondence` then can lose a vector even with the corrected switch (`MixedReferenceLosesVector`), so the driver throws.
- RandSearch.Search: models the switch as written. The corrected switch appears only in the functions and lemmas about `Picks` (`WithThumbs`), which `SearchThenExtract` uses.
- The image-metadata parsing and the image reading used by `performSingleCreate` are replaced by `ImageMetadata` values and a `readFile` parameter.
- Column layout: CreateRowWidth, SearchShape and the other width lemmas ask identifiers to be `Inert` (no `,`, `"`, `\` or line break) and messages to hold no backslash (`Loggable`). `TrailingBackslashOpensField` shows why.
- ElftOutput.TemplateDataToString: the EFS's own multi-line rendering (`operator<<` of `EFS`) is a parameter `efsLines`.
- ElftOutput.ProductIdentifierTextJoins: the CBEFF identifier rendering is a parameter, because its hex formatting is not modelled.
- `libelft.cpp` constructors are the datatype constructors. `Correspondence` follows `elft.h`; the `type` and `probeIdentifier` fields that the randimpl code also sets are not modelled.
- Where the documentation and the code differ, the model follows the code:
  - aggregated thread messages overwrite each other instead of accumulating (`GatherMessage`);
  - `splitSet` refuses when `ceil(n/k) < k`, not when `k > n` (`GuardStricterThanDocumented`).

## Findings

| source | as written | input that shows it | evidently intended | confidence | as-written member | corrected member |
|---|---|---|---|---|---|---|
| elft_1_x/libelft_output/libelft_output.cpp:472-485 | The `", "` separator is added when nothing has been written yet | A ProductIdentifier with both a marketing name and a CBEFF identifier renders with no separator between them; a lone CBEFF gets a leading `", "` | The separator only between two present members | high, not executed | ElftOutput.ProductIdentifierSeparatorInverted | ElftOutput.ProductIdentifierTextJoins |
| elft_1_x/randimpl/elft_randimpl.cpp:45-50 | `getDirectoryForTemplate` parses every archived template, and `parseTemplate` steps past the end of a zero-byte one and dereferences it | A reference set in which one `createTemplate` failed: the driver writes a zero-byte template (`elft_validation.cpp` line 896), and the archive lists it with length 0 | Zero-byte templates, which `elft.h` says will be provided to `createReferenceDatabase`, are skipped | high, not executed | ReferenceDatabase.ShortTemplateNotLoadable | ReferenceDatabase.FilledLoadable |
| elft_1_x/randimpl/elft_randimpl.cpp:604-607 | A two-thumb slap (15) is reported as `(rng() % 2) + 5`, the right little finger (5) or the left thumb (6) | A reference holding only a two-thumb slap, reported as finger 5: `extractCorrespondence` looks for a RightFour slap, finds none, and returns one vector fewer than candidates, so the driver throws | One of the thumbs (1 or 6) | medium, not executed | RandSearch.SearchAsWrittenLosesVector | RandSearch.SearchThenExtract |
| elft_1_x/validation/src/elft_validation.cpp:600-602 | The database log writes the raw message between quotes | A message `a","b` makes a 5-field row under the 4-field header | The message passed through `sanitizeMessage`, as in the other logs | medium, not executed | ResultLog.DatabaseRowAsWrittenSplits | ResultLog.DatabaseRowWidth |
