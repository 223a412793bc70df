# DataCollection Researcher: a verified Dafny model of its core

The researcher desktop app exports a study participant's Firestore data to CSV, converts the
timestamps to Korea time, and measures minute-by-minute data coverage. From the results it builds
an Excel report. It shows each participant's status and flags days at risk. It deletes a
participant's data from Firestore and from the local output folder. It also keeps the
service-account key location and the export settings. Finally, it edits and validates the
protocol document that drives the participant app, and shows a three-step workflow dashboard.

This project models the logic under those features: string, integer and list computations, and
the state changes of the editors. It then proves what the code promises about them. Each Kotlin
component is one Dafny module:

- `CsvUtils`, `CsvReading`, `CsvAnalyzer`: CSV quoting, the quote-aware line reader, and the
  coverage analyzer (timestamp column choice, epoch heuristic, minute buckets, gap runs).
- `ParticipantStatus`, `StatusScreen`: the status scanner (file name to participant, file
  classification, per-file summaries, gap counting) and the coverage rules of the status screen.
- `FirestoreDocs`, `FirestorePaging`, `FirestoreExport`, `DocPath`: the exporter's date filter,
  table shaping and paging loop. `DocPath` is the document-path normalizer the exporter and the
  deleter share.
- `FirestoreDelete`: the recursive delete over an in-memory store of collections and documents.
- `OutputPaths`, `ParticipantData`: output file naming and local deletion.
- `Config`, `DateRanges`, `ConfigViewModel`: the configuration, date-range arithmetic, and the
  settings form as a class whose methods update its state.
- `ExcelReport`, `Credentials`: the report's sheet planning and the credentials mini-JSON.
- `ProtocolModels`, `Builder`, `ProtocolValidator`: the protocol document, the builder editor as a
  class, and the validator.
- `WorkflowDashboard`, `JsonProps`, `JobModels`: the dashboard mapper, typed property reads, and
  the job request datatypes.
- `Wrappers`, `Text`, `Collections`: Option/Result, and the parts of the Kotlin string and
  collection library the code relies on.

Several things the code gets from its platform are parameters of the model:

- ISO-8601 instant parsing (`isoParse`), Korea-time parsing (`kstParse`), date parsing
  (`parseDate`) and rendering (`renderDate`, `renderMinute`, `renderInstant`, `renderKst`,
  `formatUtcDate`). `localMinute` is the minute bucket in the local zone.
- The clock (`nowUtcMillis`, `today`) and the random UUID text (`uuid`).
- File reads, given as the lines of a file (`read`).
- Firestore and file-system failures, given as the set of operations that fail (`fails`,
  `fetchFails`).

Times are integer epoch milliseconds and days are day numbers.

Some code appears twice or three times in the repository, for example the CSV line parser, the
epoch heuristic and the path normalizer. Each is modelled once, and every copy is cited.

The status scanner wraps a whole participant's build in one `runCatching`
(ParticipantStatusRepository.kt:38-43), so one unreadable file drops the participant; a per-file
`runCatching` would drop only that file. `ParticipantStatus.BuildStatusFails` states the behaviour the
code has.

## Model

| member | source | states |
|---|---|---|
| CsvUtils.Escape | composeApp/src/jvmMain/kotlin/com/hdil/datacollection_researcher/csv/CsvUtils.kt:4-12 | A value with no comma, double quote, CR or LF is returned unchanged. Any other value is enclosed in quotes with every quote inside doubled, and grows by 2 plus its number of quotes. The output differs from the input exactly when quoting is needed. |
| CsvUtils.DoubleQuotesCounts | composeApp/src/jvmMain/kotlin/com/hdil/datacollection_researcher/csv/CsvUtils.kt:9 | Doubling the quotes adds one character per quote and doubles the number of quotes. |
| CsvUtils.DoubleQuotesNoQuote | composeApp/src/jvmMain/kotlin/com/hdil/datacollection_researcher/csv/CsvUtils.kt:9 | Text with no quote is left unchanged by the replacement. |
| CsvUtils.DoubleQuotesOtherChars | composeApp/src/jvmMain/kotlin/com/hdil/datacollection_researcher/csv/CsvUtils.kt:9 | The replacement keeps the count of every other character. |
| CsvUtils.EscapeKeepsChars | composeApp/src/jvmMain/kotlin/com/hdil/datacollection_researcher/csv/CsvUtils.kt:5-11 | Every character of the value still appears in the escaped text. |
| CsvUtils.EncodeRowSingleLine | composeApp/src/jvmMain/kotlin/com/hdil/datacollection_researcher/export/DesktopFirestoreExporter.kt:279 | A row joined with `,` after escaping has no CR or LF when its fields have none. |
| CsvUtils.MultiLineFieldSpansLines | composeApp/src/jvmMain/kotlin/com/hdil/datacollection_researcher/export/DesktopFirestoreExporter.kt:271-279 | A field holding CR or LF puts that line break into its written row, so the row spans several lines of the file. |
| CsvUtils.JoinKeepsChar | composeApp/src/jvmMain/kotlin/com/hdil/datacollection_researcher/export/DesktopFirestoreExporter.kt:279 | A character of any part appears in the joined text. |
| CsvUtils.EscapeWithComma | composeApp/src/jvmTest/kotlin/com/hdil/datacollection_researcher/export/CsvEscapeTest.kt:14-17 | Quote-free text around a comma is enclosed in quotes and otherwise unchanged. |
| CsvUtils.EscapeWithQuote | composeApp/src/jvmTest/kotlin/com/hdil/datacollection_researcher/export/CsvEscapeTest.kt:19-22 | A quote inside quote-free text is doubled inside the enclosing quotes. |
| CsvReading.ParseCsvLine | composeApp/src/jvmMain/kotlin/com/hdil/datacollection_researcher/analyze/DesktopCsvAnalyzer.kt:216-242 | The index loop returns exactly the fields of the character-by-character reference parser `ParseLine`. |
| CsvReading.ParseLine | composeApp/src/jvmMain/kotlin/com/hdil/datacollection_researcher/analyze/DesktopCsvAnalyzer.kt:240-241 | Every line yields at least one field. |
| CsvReading.FieldCount | composeApp/src/jvmMain/kotlin/com/hdil/datacollection_researcher/analyze/DesktopCsvAnalyzer.kt:232-240 | A line has one field more than it has commas outside quotes. |
| CsvReading.ParseWithoutQuotes | composeApp/src/jvmMain/kotlin/com/hdil/datacollection_researcher/analyze/DesktopCsvAnalyzer.kt:221-240 | Without quotes, parsing is a plain split on commas, with empty fields kept. |
| CsvReading.ScanEscaped | composeApp/src/jvmMain/kotlin/com/hdil/datacollection_researcher/analyze/DesktopCsvAnalyzer.kt:224-231 | An escaped field followed by the end of the line or a comma is read back as the original value. |
| CsvReading.ParseEncodedRow | composeApp/src/jvmMain/kotlin/com/hdil/datacollection_researcher/analyze/DesktopCsvAnalyzer.kt:216-242 | Parsing a row that was escaped field by field and joined with `,` gives back exactly the row. |
| CsvReading.NonBlankLines | composeApp/src/jvmMain/kotlin/com/hdil/datacollection_researcher/analyze/DesktopCsvAnalyzer.kt:212 | Only non-blank lines are kept, and every line is kept when none is blank. |
| CsvReading.Read | composeApp/src/jvmMain/kotlin/com/hdil/datacollection_researcher/analyze/DesktopCsvAnalyzer.kt:208-214 | An empty file gives an empty header and no rows. Otherwise the header is the first line parsed, and the rows are the non-blank later lines parsed, one each and in order. |
| CsvReading.EncodeFile | composeApp/src/jvmMain/kotlin/com/hdil/datacollection_researcher/analyze/DesktopCsvAnalyzer.kt:90-102 | The writer emits a header line plus one line per row. |
| CsvReading.NotWrittenBlank | composeApp/src/jvmMain/kotlin/com/hdil/datacollection_researcher/analyze/DesktopCsvAnalyzer.kt:212 | A row of two or more fields, or of one non-blank field, never becomes a blank line. |
| CsvReading.ReadEncodedFile | composeApp/src/jvmMain/kotlin/com/hdil/datacollection_researcher/analyze/DesktopCsvAnalyzer.kt:208-214 | Reading back written CSV gives the header and rows, as long as no row is written as a blank line and no field holds a line break. |
| CsvReading.EmptySingleFieldRowIsSkipped | composeApp/src/jvmMain/kotlin/com/hdil/datacollection_researcher/analyze/DesktopCsvAnalyzer.kt:212 | In a one-column file, a row holding an empty value is written as a blank line and is lost on re-reading. |
| CsvAnalyzer.Extension | composeApp/src/jvmMain/kotlin/com/hdil/datacollection_researcher/analyze/DesktopCsvAnalyzer.kt:30 | The extension has no dot, and a name with no dot has no extension. |
| CsvAnalyzer.NameWithoutExtension | composeApp/src/jvmMain/kotlin/com/hdil/datacollection_researcher/analyze/DesktopCsvAnalyzer.kt:88 | The base name is a prefix of the name, and a name with no dot is its own base name. |
| CsvAnalyzer.NameParts | composeApp/src/jvmMain/kotlin/com/hdil/datacollection_researcher/analyze/DesktopCsvAnalyzer.kt:88 | A name with a dot is its base name, a dot and its extension. |
| CsvAnalyzer.SelectInputs | composeApp/src/jvmMain/kotlin/com/hdil/datacollection_researcher/analyze/DesktopCsvAnalyzer.kt:28-35 | The inputs are exactly the folder's files that pass the input rule, sorted by name, each as many times as it is listed, so same-named files from different folders all stay. The rule: extension `csv`, name contains `_export`, and name contains neither `_korea_time` nor `collection_analysis`, all ignoring case. |
| CsvAnalyzer.SecondsAreTenDigits | composeApp/src/jvmMain/kotlin/com/hdil/datacollection_researcher/analyze/DesktopCsvAnalyzer.kt:195-196 | The range treated as seconds is exactly the positive numbers with ten digits. |
| CsvAnalyzer.EpochOfText | composeApp/src/jvmMain/kotlin/com/hdil/datacollection_researcher/analyze/DesktopCsvAnalyzer.kt:193-203 | An integer is scaled to milliseconds when it has ten digits and kept otherwise. Any other text goes to the ISO-8601 parser with its spaces turned into `T`. |
| CsvAnalyzer.EpochMillis | composeApp/src/jvmMain/kotlin/com/hdil/datacollection_researcher/analyze/DesktopCsvAnalyzer.kt:188-204 | A missing or blank cell gives nothing. Otherwise the result is the value of the text after whitespace and then double quotes are cut from its ends. |
| CsvAnalyzer.EpochOfInteger | composeApp/src/jvmMain/kotlin/com/hdil/datacollection_researcher/analyze/DesktopCsvAnalyzer.kt:193-196 | A rendered 64-bit integer is read as itself, scaled when it has ten digits. |
| CsvAnalyzer.EpochIgnoresPadding | composeApp/src/jvmMain/kotlin/com/hdil/datacollection_researcher/analyze/DesktopCsvAnalyzer.kt:190 | Surrounding whitespace and one pair of quotes do not change the value read. |
| CsvAnalyzer.ConvertToKst | composeApp/src/jvmMain/kotlin/com/hdil/datacollection_researcher/analyze/DesktopCsvAnalyzer.kt:182-186 | A readable timestamp is rendered in Korea time; any other text is kept as it is. |
| CsvAnalyzer.TimestampColumns | composeApp/src/jvmMain/kotlin/com/hdil/datacollection_researcher/analyze/DesktopCsvAnalyzer.kt:75-82 | The timestamp columns are exactly the header columns that match one of the pattern's alternatives, ignoring case. |
| CsvAnalyzer.TimestampColumnIgnoresCase | composeApp/src/jvmMain/kotlin/com/hdil/datacollection_researcher/analyze/DesktopCsvAnalyzer.kt:77 | Names equal up to case get the same verdict from the pattern. |
| CsvAnalyzer.ConvertedColumnIff | composeApp/src/jvmMain/kotlin/com/hdil/datacollection_researcher/analyze/DesktopCsvAnalyzer.kt:95 | For a header column, the per-cell test in the row loop is the same as the pattern test. |
| CsvAnalyzer.ConvertRow | composeApp/src/jvmMain/kotlin/com/hdil/datacollection_researcher/analyze/DesktopCsvAnalyzer.kt:93-100 | There is one output cell per header column. A missing cell is empty, timestamp columns are converted, and every other cell is copied unchanged. |
| CsvAnalyzer.KoreaTimeLines | composeApp/src/jvmMain/kotlin/com/hdil/datacollection_researcher/analyze/DesktopCsvAnalyzer.kt:90-103 | The Korea-time copy has a header line plus one line per row. |
| CsvAnalyzer.FirstPresent | composeApp/src/jvmMain/kotlin/com/hdil/datacollection_researcher/analyze/DesktopCsvAnalyzer.kt:107 | It returns the first name the header has, ignoring case; no earlier name is present, and there is none exactly when no name is present. |
| CsvAnalyzer.ChosenColumn | composeApp/src/jvmMain/kotlin/com/hdil/datacollection_researcher/analyze/DesktopCsvAnalyzer.kt:106-107 | The chosen column is a priority column the header has, and there is none exactly when the header has no priority column. |
| CsvAnalyzer.CoveredMinutes | composeApp/src/jvmMain/kotlin/com/hdil/datacollection_researcher/analyze/DesktopCsvAnalyzer.kt:117-131 | A minute is covered exactly when some row's chosen cell is readable and falls in it. |
| CsvAnalyzer.CollectMinuteKeys | composeApp/src/jvmMain/kotlin/com/hdil/datacollection_researcher/analyze/DesktopCsvAnalyzer.kt:112-132 | The row loop records each covered minute once, in order of first appearance. |
| CsvAnalyzer.SortedMinutes | composeApp/src/jvmMain/kotlin/com/hdil/datacollection_researcher/analyze/DesktopCsvAnalyzer.kt:134 | The distinct, sorted minute keys strictly increase. |
| CsvAnalyzer.ComputeGaps | composeApp/src/jvmMain/kotlin/com/hdil/datacollection_researcher/analyze/DesktopCsvAnalyzer.kt:136-144 | The loop over consecutive minutes produces exactly the gap list `Gaps`. |
| CsvAnalyzer.GapsAreBetweenNeighbours | composeApp/src/jvmMain/kotlin/com/hdil/datacollection_researcher/analyze/DesktopCsvAnalyzer.kt:137-143 | Every gap lies between two neighbouring covered minutes and counts the minutes strictly between them, which is at least one. |
| CsvAnalyzer.NoGapsIffUnbroken | composeApp/src/jvmMain/kotlin/com/hdil/datacollection_researcher/analyze/DesktopCsvAnalyzer.kt:137-143 | No gap is reported exactly when the covered minutes form one unbroken stretch. |
| CsvAnalyzer.MissingMinutesTotal | composeApp/src/jvmMain/kotlin/com/hdil/datacollection_researcher/analyze/DesktopCsvAnalyzer.kt:140-142 | The missing minutes add up to the span from the first to the last covered minute, less the covered minutes. |
| CsvAnalyzer.GapTextHasArrow | composeApp/src/jvmMain/kotlin/com/hdil/datacollection_researcher/analyze/DesktopCsvAnalyzer.kt:142 | Every written gap entry shows an arrow. |
| CsvAnalyzer.NoneMarker | composeApp/src/jvmMain/kotlin/com/hdil/datacollection_researcher/analyze/DesktopCsvAnalyzer.kt:173 | The `(none)` marker is written unescaped and holds no arrow. |
| CsvAnalyzer.GapLines | composeApp/src/jvmMain/kotlin/com/hdil/datacollection_researcher/analyze/DesktopCsvAnalyzer.kt:170-176 | The gap section is a blank line, `gaps`, and at least one entry. |
| CsvAnalyzer.GapLinesNone | composeApp/src/jvmMain/kotlin/com/hdil/datacollection_researcher/analyze/DesktopCsvAnalyzer.kt:172-176 | The gap section ends with `(none)` exactly when there is no gap. |
| CsvAnalyzer.NoneMarksNoGaps | composeApp/src/jvmMain/kotlin/com/hdil/datacollection_researcher/analyze/DesktopCsvAnalyzer.kt:152-177 | Whatever precedes the gap section, the report ends with `(none)` exactly when no gap was found. |
| CsvAnalyzer.MinMaxMinutes | composeApp/src/jvmMain/kotlin/com/hdil/datacollection_researcher/analyze/DesktopCsvAnalyzer.kt:159-162 | The first and last reported minutes are the minimum and maximum of the coverage. |
| CsvAnalyzer.AnalyzeSingleFile | composeApp/src/jvmMain/kotlin/com/hdil/datacollection_researcher/analyze/DesktopCsvAnalyzer.kt:68-180 | The analysis of one input produces its Korea-time lines and its coverage report lines from the parsed file. |
| ParticipantStatus.IdMatchAtIsRegex | composeApp/src/jvmMain/kotlin/com/hdil/datacollection_researcher/status/ParticipantStatusRepository.kt:17-20 | At each position, the hand-written matcher finds exactly the matches of `studies__[^_]+__participants__([^_]+)__`, ignoring case, and it returns the captured id. |
| ParticipantStatus.IdMatchAtSound | composeApp/src/jvmMain/kotlin/com/hdil/datacollection_researcher/status/ParticipantStatusRepository.kt:17-20 | Whatever the matcher finds at a position is a match of the regular expression. |
| ParticipantStatus.IdMatchAtComplete | composeApp/src/jvmMain/kotlin/com/hdil/datacollection_researcher/status/ParticipantStatusRepository.kt:17-20 | Every match of the regular expression at a position is found by the matcher. |
| ParticipantStatus.MatchPosition | composeApp/src/jvmMain/kotlin/com/hdil/datacollection_researcher/status/ParticipantStatusRepository.kt:49 | It returns the leftmost position where the pattern matches, and nothing when no position matches. |
| ParticipantStatus.IdFromFileNameIsLeftmost | composeApp/src/jvmMain/kotlin/com/hdil/datacollection_researcher/status/ParticipantStatusRepository.kt:49-50 | The id read from a name belongs to a match of the regular expression, and no match starts further left. |
| ParticipantStatus.IdFromFileNameNone | composeApp/src/jvmMain/kotlin/com/hdil/datacollection_researcher/status/ParticipantStatusRepository.kt:49 | No id is read exactly when the regular expression matches nowhere in the name. |
| ParticipantStatus.IdFromExporterName | composeApp/src/jvmMain/kotlin/com/hdil/datacollection_researcher/status/ParticipantStatusRepository.kt:17-20 | An exporter-style name `studies__<study>__participants__<p>__...` gives `p`. |
| ParticipantStatus.ParticipantIdOf | composeApp/src/jvmMain/kotlin/com/hdil/datacollection_researcher/status/ParticipantStatusRepository.kt:47-58 | An id in the file name wins. Failing that, the parent folder's name is used unless it is blank or `output`. Otherwise there is no id, and this is the only case with none. |
| ParticipantStatus.Classify | composeApp/src/jvmMain/kotlin/com/hdil/datacollection_researcher/status/ParticipantStatusRepository.kt:133-141 | A name is Excel exactly when its extension is `xlsx`. It is Analyze exactly when it is not Excel and contains `_korea_time` or `analy`, and Export exactly when it is neither and contains `export`. All tests ignore case. |
| ParticipantStatus.CategoryLiterals | composeApp/src/jvmMain/kotlin/com/hdil/datacollection_researcher/status/ParticipantStatusRepository.kt:137-138 | The tests for `collection_analysis` and `_export` are implied by the ones for `analy` and `export`. |
| ParticipantStatus.TimestampIndex | composeApp/src/jvmMain/kotlin/com/hdil/datacollection_researcher/status/ParticipantStatusRepository.kt:146-160 | The chosen column is where the header has the first candidate name it contains, ignoring case. There is none exactly when the header has no candidate. |
| ParticipantStatus.RowTimestamp | composeApp/src/jvmMain/kotlin/com/hdil/datacollection_researcher/status/ParticipantStatusRepository.kt:143-144 | An empty header, an empty row or a header without a candidate column gives no timestamp. |
| ParticipantStatus.RowTimestampCell | composeApp/src/jvmMain/kotlin/com/hdil/datacollection_researcher/status/ParticipantStatusRepository.kt:162-170 | A row too short for the chosen column gives no timestamp. A cell that reads as Korea time is taken that way; any other cell is read as an epoch or ISO-8601 value. |
| ParticipantStatus.MaxOf | composeApp/src/jvmMain/kotlin/com/hdil/datacollection_researcher/status/ParticipantStatusRepository.kt:66 | There is a maximum exactly when the list is not empty, and it is an element no smaller than any other. |
| ParticipantStatus.Later | composeApp/src/jvmMain/kotlin/com/hdil/datacollection_researcher/status/ParticipantStatusRepository.kt:117-118 | The latest timestamp so far moves only to a strictly later new one, and is never below either. |
| ParticipantStatus.FileSummary | composeApp/src/jvmMain/kotlin/com/hdil/datacollection_researcher/status/ParticipantStatusRepository.kt:83-131 | An Excel file counts no records and has no timestamp. A CSV file that cannot be read fails, which is the only failure. A summary keeps the file's name and its category. |
| ParticipantStatus.RecordCountIsRows | composeApp/src/jvmMain/kotlin/com/hdil/datacollection_researcher/status/ParticipantStatusRepository.kt:110-112 | The record count equals the number of rows the CSV reader yields for the same lines. |
| ParticipantStatus.ScanLines | composeApp/src/jvmMain/kotlin/com/hdil/datacollection_researcher/status/ParticipantStatusRepository.kt:100-121 | The line loop counts exactly the non-blank lines after the header and keeps exactly the latest of their timestamps. |
| ParticipantStatus.ScanRecord | composeApp/src/jvmMain/kotlin/com/hdil/datacollection_researcher/status/ParticipantStatusRepository.kt:110-119 | A blank line changes nothing. Any other line adds one record, and its timestamp replaces the latest one only when strictly later. |
| ParticipantStatus.FirstLineOnly | composeApp/src/jvmMain/kotlin/com/hdil/datacollection_researcher/status/ParticipantStatusRepository.kt:106-108 | The header line alone holds no record and no timestamp. |
| ParticipantStatus.ScanStep | composeApp/src/jvmMain/kotlin/com/hdil/datacollection_researcher/status/ParticipantStatusRepository.kt:105-119 | Each later line adds one record unless blank, and its timestamp is taken when later. |
| ParticipantStatus.SummarizeFile | composeApp/src/jvmMain/kotlin/com/hdil/datacollection_researcher/status/ParticipantStatusRepository.kt:83-131 | The method returns exactly the file summary defined above. |
| ParticipantStatus.LineTimestampsMembers | composeApp/src/jvmMain/kotlin/com/hdil/datacollection_researcher/status/ParticipantStatusRepository.kt:116-118 | A timestamp is among a file's timestamps exactly when some data line yields it. |
| ParticipantStatus.StatusMinutes | composeApp/src/jvmMain/kotlin/com/hdil/datacollection_researcher/status/ParticipantStatusRepository.kt:193-196 | The minutes examined are distinct and strictly increasing. |
| ParticipantStatus.GapStep | composeApp/src/jvmMain/kotlin/com/hdil/datacollection_researcher/status/ParticipantStatusRepository.kt:202-209 | One more pair of neighbours adds a gap and its missing minutes exactly when they are more than one minute apart. |
| ParticipantStatus.CountGaps | composeApp/src/jvmMain/kotlin/com/hdil/datacollection_researcher/status/ParticipantStatusRepository.kt:200-211 | The counting loop gives the number of gaps and the total of their missing minutes, as the analyzer's gap list defines them. |
| ParticipantStatus.ComputeMinuteGaps | composeApp/src/jvmMain/kotlin/com/hdil/datacollection_researcher/status/ParticipantStatusRepository.kt:192-212 | Fewer than two minutes give no gap. Otherwise the result is the gap count and missing-minute total over the files' latest Korea-time minutes. |
| ParticipantStatus.MissingAtLeastGaps | composeApp/src/jvmMain/kotlin/com/hdil/datacollection_researcher/status/ParticipantStatusRepository.kt:206-208 | Each gap misses at least one minute, so there are never more gaps than missing minutes. |
| ParticipantStatus.Summaries | composeApp/src/jvmMain/kotlin/com/hdil/datacollection_researcher/status/ParticipantStatusRepository.kt:61-63 | All files are summarised in order, or the whole list fails exactly when one file fails. |
| ParticipantStatus.BuildStatus | composeApp/src/jvmMain/kotlin/com/hdil/datacollection_researcher/status/ParticipantStatusRepository.kt:60-81 | A built status carries the participant's id and the file count. |
| ParticipantStatus.BuildStatusFails | composeApp/src/jvmMain/kotlin/com/hdil/datacollection_researcher/status/ParticipantStatusRepository.kt:42-63 | A participant is dropped exactly when one of its CSV files cannot be read. |
| ParticipantStatus.LatestOfFiles | composeApp/src/jvmMain/kotlin/com/hdil/datacollection_researcher/status/ParticipantStatusRepository.kt:66 | The latest timestamp of the summaries is one that some file has, and no file's timestamp is later. It is absent exactly when no file has one. |
| ParticipantStatus.BuildStatusFacts | composeApp/src/jvmMain/kotlin/com/hdil/datacollection_researcher/status/ParticipantStatusRepository.kt:60-81 | A status lists its files in name order. Its list is the files' summaries taken over a reordering of the files, one summary per file and repeats included, so the file count, record total and latest timestamp come from every file. Its total is the sum of their records. Its latest timestamp is the latest of theirs, and it never has more gaps than missing minutes. |
| ParticipantStatus.GroupKeys | composeApp/src/jvmMain/kotlin/com/hdil/datacollection_researcher/status/ParticipantStatusRepository.kt:32-36 | The group keys have no repeats, and a key is listed exactly when some file falls under it. |
| ParticipantStatus.Group | composeApp/src/jvmMain/kotlin/com/hdil/datacollection_researcher/status/ParticipantStatusRepository.kt:34-36 | A group holds exactly the files whose key it is, each as many times as it is listed. |
| ParticipantStatus.GroupSnoc | composeApp/src/jvmMain/kotlin/com/hdil/datacollection_researcher/status/ParticipantStatusRepository.kt:34-36 | A group keeps the listing order: one more listed file goes to the end of its own group and leaves the other groups unchanged. |
| ParticipantStatus.ListStatuses | composeApp/src/jvmMain/kotlin/com/hdil/datacollection_researcher/status/ParticipantStatusRepository.kt:38-44 | The statuses are sorted by participant id. |
| ParticipantStatus.BuilderKeepsKey | composeApp/src/jvmMain/kotlin/com/hdil/datacollection_researcher/status/ParticipantStatusRepository.kt:38-43 | Every status built for a group carries that group's key. |
| ParticipantStatus.BuiltIdsDistinct | composeApp/src/jvmMain/kotlin/com/hdil/datacollection_researcher/status/ParticipantStatusRepository.kt:38-43 | Statuses built from distinct keys have distinct ids. |
| ParticipantStatus.ListStatusesDistinct | composeApp/src/jvmMain/kotlin/com/hdil/datacollection_researcher/status/ParticipantStatusRepository.kt:32-44 | No two listed statuses share a participant id. |
| ParticipantStatus.ListStatusesMembers | composeApp/src/jvmMain/kotlin/com/hdil/datacollection_researcher/status/ParticipantStatusRepository.kt:32-44 | A status is listed exactly when some input file belongs to its participant and the participant's files all build into that status. |
| ParticipantStatus.LoadStatuses | composeApp/src/jvmMain/kotlin/com/hdil/datacollection_researcher/status/ParticipantStatusRepository.kt:22-45 | A missing folder, or one that is not a directory, gives nothing. The result is sorted by participant id. |
| FirestoreDocs.Get | composeApp/src/jvmMain/kotlin/com/hdil/datacollection_researcher/export/DesktopFirestoreExporter.kt:183 | A key the document does not hold reads as no value. A key it holds reads as the value of the first pair stored under it. |
| FirestoreDocs.Keys | composeApp/src/jvmMain/kotlin/com/hdil/datacollection_researcher/export/DesktopFirestoreExporter.kt:191 | A document's keys are the keys of its fields, in map order. |
| FirestoreDocs.AllKeysMembers | composeApp/src/jvmMain/kotlin/com/hdil/datacollection_researcher/export/DesktopFirestoreExporter.kt:191 | A key is among the collected keys exactly when some document holds it. |
| FirestoreDocs.HeaderShape | composeApp/src/jvmMain/kotlin/com/hdil/datacollection_researcher/export/DesktopFirestoreExporter.kt:161-191 | The header starts with `id` and has no repeats. Beyond `id` it holds exactly the keys of the kept documents. |
| FirestoreDocs.AllKeysSnoc | composeApp/src/jvmMain/kotlin/com/hdil/datacollection_researcher/export/DesktopFirestoreExporter.kt:191 | Adding one more document appends its keys. |
| FirestorePaging.KeptUpToIsFilter | composeApp/src/jvmMain/kotlin/com/hdil/datacollection_researcher/export/DesktopFirestoreExporter.kt:180-192 | Keeping documents one at a time gives the filter of the documents read so far. |
| FirestorePaging.PageLimit | composeApp/src/jvmMain/kotlin/com/hdil/datacollection_researcher/export/DesktopFirestoreExporter.kt:157 | The page size is the requested limit when that is at least 1, and 1 otherwise. |
| FirestorePaging.FetchesNeeded | composeApp/src/jvmMain/kotlin/com/hdil/datacollection_researcher/export/DesktopFirestoreExporter.kt:169-198 | A collection takes one query per full page plus a final short or empty one, so at least one. |
| FirestorePaging.FetchNeeded | composeApp/src/jvmMain/kotlin/com/hdil/datacollection_researcher/export/DesktopFirestoreExporter.kt:169-198 | When `k` full pages fit in the collection, the k-th query is issued. |
| FirestorePaging.LastFetch | composeApp/src/jvmMain/kotlin/com/hdil/datacollection_researcher/export/DesktopFirestoreExporter.kt:178-197 | A page that reaches the end of the data is the last query. |
| FirestorePaging.KeysUpToAllKeys | composeApp/src/jvmMain/kotlin/com/hdil/datacollection_researcher/export/DesktopFirestoreExporter.kt:191 | The keys collected while reading are the keys of the documents kept so far. |
| FirestorePaging.HeaderUpToHeader | composeApp/src/jvmMain/kotlin/com/hdil/datacollection_researcher/export/DesktopFirestoreExporter.kt:161-191 | The running header is the header of the documents kept so far. |
| FirestorePaging.ReadPage | composeApp/src/jvmMain/kotlin/com/hdil/datacollection_researcher/export/DesktopFirestoreExporter.kt:180-192 | Reading one page counts every document, excludes those the test rejects, and keeps the rest with their keys. The state afterwards is exactly the state after that many documents. |
| FirestorePaging.PagedStep | composeApp/src/jvmMain/kotlin/com/hdil/datacollection_researcher/export/DesktopFirestoreExporter.kt:194-197 | A full page keeps the loop invariant: full pages read so far, no earlier query failing, and every report balanced. |
| FirestorePaging.PagedLast | composeApp/src/jvmMain/kotlin/com/hdil/datacollection_researcher/export/DesktopFirestoreExporter.kt:195-197 | After the short last page, no query has failed and every report is balanced. |
| FirestorePaging.PageThrough | composeApp/src/jvmMain/kotlin/com/hdil/datacollection_researcher/export/DesktopFirestoreExporter.kt:164-198 | The state reached is the state after the documents read. A failing query is one the loop needs, and all earlier queries succeeded. It leaves the read counter at the start of its page and reports that state last. Without a failure every query succeeded and the whole collection was read. Every report has read equal to excluded plus included. |
| FirestoreExport.ExportEpoch | composeApp/src/jvmMain/kotlin/com/hdil/datacollection_researcher/export/DesktopFirestoreExporter.kt:251-262 | A timestamp gives its whole milliseconds and a whole (Long) number gives itself. A string gives its trimmed text as a 64-bit integer, or failing that as an ISO-8601 instant. Any other value gives nothing. |
| FirestoreExport.ExportEpochOfIntegerText | composeApp/src/jvmMain/kotlin/com/hdil/datacollection_researcher/export/DesktopFirestoreExporter.kt:258 | A 64-bit integer written as decimal text reads back as that number. |
| FirestoreExport.ExportDoesNotScaleSeconds | composeApp/src/jvmMain/kotlin/com/hdil/datacollection_researcher/export/DesktopFirestoreExporter.kt:258 | The exporter reads a ten-digit number as milliseconds, where the analyzer reads it as seconds: the same text gives a result a thousand times smaller. |
| FirestoreExport.DocEpochFirstKey | composeApp/src/jvmMain/kotlin/com/hdil/datacollection_researcher/export/DesktopFirestoreExporter.kt:230-242 | A document's time is that of the first candidate key that gives one. |
| FirestoreExport.DocEpochNone | composeApp/src/jvmMain/kotlin/com/hdil/datacollection_researcher/export/DesktopFirestoreExporter.kt:240-244 | A document has no time exactly when no candidate key gives one. |
| FirestoreExport.ShouldInclude | composeApp/src/jvmMain/kotlin/com/hdil/datacollection_researcher/export/DesktopFirestoreExporter.kt:225-249 | With no bound every document passes, and so does a document without a time. Otherwise its time must be at least the start and before the end. |
| FirestoreExport.SingleStampDecides | composeApp/src/jvmMain/kotlin/com/hdil/datacollection_researcher/export/DesktopFirestoreExporter.kt:230-248 | A document stamped under a single candidate key is kept exactly when the range admits that stamp. |
| FirestoreExport.IncludedFilters | composeApp/src/jvmMain/kotlin/com/hdil/datacollection_researcher/export/DesktopFirestoreExporter.kt:184-190 | The documents let through are, in order, exactly those the range admits. |
| FirestoreExport.Serialize | composeApp/src/jvmMain/kotlin/com/hdil/datacollection_researcher/export/DesktopFirestoreExporter.kt:284-302 | A missing value becomes empty, a string is itself, a whole (Long) number is its decimal text and a boolean is `true` or `false`. A timestamp is the ISO-8601 text of its instant cut to whole milliseconds, and a structured value is its encoder's text. |
| FirestoreExport.RowCells | composeApp/src/jvmMain/kotlin/com/hdil/datacollection_researcher/export/DesktopFirestoreExporter.kt:273-278 | There is one cell per header key: the id under `id`, and the serialized value elsewhere. |
| FirestoreExport.MissingKeyEmpty | composeApp/src/jvmMain/kotlin/com/hdil/datacollection_researcher/export/DesktopFirestoreExporter.kt:276-285 | A header key the document lacks gives an empty cell. |
| FirestoreExport.Rows | composeApp/src/jvmMain/kotlin/com/hdil/datacollection_researcher/export/DesktopFirestoreExporter.kt:272-280 | There is one row of cells per kept document, in order. |
| FirestoreExport.WriteCsv | composeApp/src/jvmMain/kotlin/com/hdil/datacollection_researcher/export/DesktopFirestoreExporter.kt:264-282 | The file holds the header line plus one line per document. |
| FirestoreExport.ExportReadBack | composeApp/src/jvmMain/kotlin/com/hdil/datacollection_researcher/export/DesktopFirestoreExporter.kt:264-282 | If no id is blank and no header or cell holds a line break, reading a written file back gives its header and every kept document's cells, in order. |
| FirestoreExport.OrderByField | composeApp/src/jvmMain/kotlin/com/hdil/datacollection_researcher/export/DesktopFirestoreExporter.kt:158 | A blank order field becomes `__name__`; any other field is used as typed. |
| FirestoreExport.OrderByFieldNotBlank | composeApp/src/jvmMain/kotlin/com/hdil/datacollection_researcher/export/DesktopFirestoreExporter.kt:158 | The field the query orders by is never blank. |
| FirestoreExport.ExportCollection | composeApp/src/jvmMain/kotlin/com/hdil/datacollection_researcher/export/DesktopFirestoreExporter.kt:151-198 | The export succeeds exactly when none of the queries it needs fails. It then returns the header, the kept documents and counts of read, excluded and included that add up. On failure the last report is the state at the start of the failing page. Every report has read equal to excluded plus included. |
| FirestoreExport.SafePath | composeApp/src/jvmMain/kotlin/com/hdil/datacollection_researcher/export/DesktopFirestoreExporter.kt:204-206 | The safe path holds no `/` or `\`, and a path without either is unchanged. |
| FirestoreExport.FilePrefix | composeApp/src/jvmMain/kotlin/com/hdil/datacollection_researcher/export/DesktopFirestoreExporter.kt:212 | The prefix is the safe path followed by `_export`, with no separator in it. |
| FirestoreExport.ExportDocRoot | composeApp/src/jvmMain/kotlin/com/hdil/datacollection_researcher/export/DesktopFirestoreExporter.kt:70-80 | A root that is blank after trimming is refused with its own message. Any other root is normalized as a document path. |
| DocPath.Segments | composeApp/src/jvmMain/kotlin/com/hdil/datacollection_researcher/export/DesktopFirestoreExporter.kt:368 | The segments are non-blank and none holds a `/`. |
| DocPath.BlankHasNoSegments | composeApp/src/jvmMain/kotlin/com/hdil/datacollection_researcher/export/DesktopFirestoreExporter.kt:363-369 | A blank path has no segment, so the blank test is subsumed by the segment count. |
| DocPath.NormalizeDocPath | composeApp/src/jvmMain/kotlin/com/hdil/datacollection_researcher/export/DesktopFirestoreExporter.kt:358-380 | A path is accepted exactly when it has an even number, at least two, of non-blank segments after trimming and cutting leading slashes, and is then those segments joined by `/`. A refused path gets the empty-root message when nothing is left after stripping, and otherwise the not-a-document message that echoes the input. |
| DocPath.FromStripped | composeApp/src/jvmMain/kotlin/com/hdil/datacollection_researcher/export/DesktopFirestoreExporter.kt:363-379 | After stripping, the path is accepted exactly on an even segment count of at least two, and is then its segments joined by `/`. A blank stripped path gets the empty-root message; any other refusal gets the message echoing the raw input. |
| DocPath.SplitJoin | composeApp/src/jvmMain/kotlin/com/hdil/datacollection_researcher/export/DesktopFirestoreExporter.kt:368-379 | Splitting slash-free pieces joined by `/` gives the pieces back. |
| DocPath.NormalizedShape | composeApp/src/jvmMain/kotlin/com/hdil/datacollection_researcher/export/DesktopFirestoreExporter.kt:358-380 | An accepted path splits into its segments: an even number, at least two, none blank. It does not start with `/`. |
| DocPath.NormalizeIdempotent | composeApp/src/jvmMain/kotlin/com/hdil/datacollection_researcher/export/DesktopFirestoreExporter.kt:358-380 | A normalized path whose ends are not whitespace is accepted again unchanged. |
| DocPath.NormalizeJoined | composeApp/src/jvmMain/kotlin/com/hdil/datacollection_researcher/export/DesktopFirestoreExporter.kt:358-380 | A stripped input made of an even number, at least two, of clean segments joined by `/` is accepted as exactly that text. |
| DocPath.SegmentsOfJoin | composeApp/src/jvmMain/kotlin/com/hdil/datacollection_researcher/export/DesktopFirestoreExporter.kt:368 | The segments of slash-free pieces joined by `/` are the non-blank pieces. |
| DocPath.JoinedSegments | composeApp/src/jvmMain/kotlin/com/hdil/datacollection_researcher/export/DesktopFirestoreExporter.kt:368 | Slash-free, non-blank pieces joined by `/` have exactly those pieces as segments. |
| DocPath.NormalizeTwoSegments | composeApp/src/jvmMain/kotlin/com/hdil/datacollection_researcher/export/DesktopFirestoreExporter.kt:358-380 | `a/b` with clean `a` and `b` is accepted as itself. |
| DocPath.NormalizeKeepsInnerSpace | composeApp/src/jvmMain/kotlin/com/hdil/datacollection_researcher/export/DesktopFirestoreExporter.kt:359-361 | Normalizing is not idempotent in general: `/ a/b` becomes ` a/b` on the first pass and `a/b` on the second. |
| FirestoreDelete.CoerceBatch | composeApp/src/jvmMain/kotlin/com/hdil/datacollection_researcher/delete/DesktopFirestoreDeleter.kt:59 | The batch size is clamped into 1..500: kept when inside, raised to 1 when below, lowered to 500 when above. |
| FirestoreDelete.Range | composeApp/src/jvmMain/kotlin/com/hdil/datacollection_researcher/delete/DesktopFirestoreDeleter.kt:102 | The indices of a page go from its first document to its last. |
| FirestoreDelete.PageAddrs | composeApp/src/jvmMain/kotlin/com/hdil/datacollection_researcher/delete/DesktopFirestoreDeleter.kt:111-112 | One batch commit removes exactly the page's documents. |
| FirestoreDelete.PageIsRange | composeApp/src/jvmMain/kotlin/com/hdil/datacollection_researcher/delete/DesktopFirestoreDeleter.kt:94 | When the documents before `i` are gone and the rest remain, the page query returns the next `batch` of them, or whatever is left. |
| FirestoreDelete.PageAddrsLeafFirst | composeApp/src/jvmMain/kotlin/com/hdil/datacollection_researcher/delete/DesktopFirestoreDeleter.kt:111-112 | The documents of one batch are distinct and none lies below another. |
| FirestoreDelete.LeafFirstAppend | composeApp/src/jvmMain/kotlin/com/hdil/datacollection_researcher/delete/DesktopFirestoreDeleter.kt:101-114 | Appending removals that lie above no earlier removal keeps the removal order leaf first. |
| FirestoreDelete.CommitOrder | composeApp/src/jvmMain/kotlin/com/hdil/datacollection_researcher/delete/DesktopFirestoreDeleter.kt:101-112 | No earlier removal lies below a document of the page, because the page's subcollections are cleared first. |
| FirestoreDelete.CommitStep | composeApp/src/jvmMain/kotlin/com/hdil/datacollection_researcher/delete/DesktopFirestoreDeleter.kt:111-116 | A committed page moves the loop on: its documents are gone, the rest remain, and the order stays leaf first. |
| FirestoreDelete.CommitComplete | composeApp/src/jvmMain/kotlin/com/hdil/datacollection_researcher/delete/DesktopFirestoreDeleter.kt:111-115 | Committing a page whose subtrees are already gone completes the page. |
| FirestoreDelete.SubComplete | composeApp/src/jvmMain/kotlin/com/hdil/datacollection_researcher/delete/DesktopFirestoreDeleter.kt:105-107 | Each cleared subcollection adds its whole subtree to what is gone below the document. |
| FirestoreDelete.UnrelatedAbsent | composeApp/src/jvmMain/kotlin/com/hdil/datacollection_researcher/delete/DesktopFirestoreDeleter.kt:102-112 | A document unrelated to every removal has not been removed. |
| FirestoreDelete.DeleteCollection | composeApp/src/jvmMain/kotlin/com/hdil/datacollection_researcher/delete/DesktopFirestoreDeleter.kt:80-123 | The count is the number of documents removed, all of them below the collection. No document goes after one of its ancestors and none goes twice. When no query or commit fails, in a store whose documents all exist, the collection's whole subtree is gone and the count is its size. A failure returns the count reached so far. |
| FirestoreDelete.ClearPage | composeApp/src/jvmMain/kotlin/com/hdil/datacollection_researcher/delete/DesktopFirestoreDeleter.kt:101-119 | A committed page moves the loop state on to the page's end. A failing commit ends the deletion with the count the recursive calls had reached. |
| FirestoreDelete.DeletePage | composeApp/src/jvmMain/kotlin/com/hdil/datacollection_researcher/delete/DesktopFirestoreDeleter.kt:102-108 | Each document of the page has its subcollections deleted recursively, and none when listing them fails. Everything removed lies below the page. |
| FirestoreDelete.PageStep | composeApp/src/jvmMain/kotlin/com/hdil/datacollection_researcher/delete/DesktopFirestoreDeleter.kt:103-107 | Clearing the subtrees of one more document of the page keeps the removals below the page. |
| FirestoreDelete.DeleteSubcollections | composeApp/src/jvmMain/kotlin/com/hdil/datacollection_researcher/delete/DesktopFirestoreDeleter.kt:62-107 | The subcollections are deleted in turn, one count each, and the total is their sum. With no failure every one is gone. |
| FirestoreDelete.SumSnoc | composeApp/src/jvmMain/kotlin/com/hdil/datacollection_researcher/delete/DesktopFirestoreDeleter.kt:67 | Adding one more count adds it to the total. |
| FirestoreDelete.StartFailure | composeApp/src/jvmMain/kotlin/com/hdil/datacollection_researcher/delete/DesktopFirestoreDeleter.kt:25-57 | In order: a missing credential file, a bad document path (with its message), a failed connection and a failed listing each stop the flow. The flow goes on exactly when none of them happens. |
| FirestoreDelete.DeleteParticipant | composeApp/src/jvmMain/kotlin/com/hdil/datacollection_researcher/delete/DesktopFirestoreDeleter.kt:23-78 | On an early failure that failure is the outcome and nothing is removed. Otherwise the outcome is Finished with one count per subcollection. |
| FirestoreDelete.DeleteTree | composeApp/src/jvmMain/kotlin/com/hdil/datacollection_researcher/delete/DesktopFirestoreDeleter.kt:59-75 | The total is the sum of the counts, plus one when the participant document is deleted, and equals the documents removed. The participant document goes last. With no failure, in a store whose documents all exist, the whole subtree is gone and the total is its size. |
| FirestoreDelete.RootAbsent | composeApp/src/jvmMain/kotlin/com/hdil/datacollection_researcher/delete/DesktopFirestoreDeleter.kt:62-69 | Deleting the subcollections never removes the participant document itself. |
| FirestoreDelete.RootLast | composeApp/src/jvmMain/kotlin/com/hdil/datacollection_researcher/delete/DesktopFirestoreDeleter.kt:72 | Removing the participant document after everything else keeps the order leaf first. |
| FirestoreDelete.RootComplete | composeApp/src/jvmMain/kotlin/com/hdil/datacollection_researcher/delete/DesktopFirestoreDeleter.kt:72-73 | With its subtrees gone and itself removed, the participant's whole subtree is gone. |
| OutputPaths.ReplaceUnsafe | composeApp/src/jvmMain/kotlin/com/hdil/datacollection_researcher/io/ParticipantOutputPaths.kt:55 | Each unsafe character becomes `_`, one for one, and every other character is kept. |
| OutputPaths.SanitizeSegment | composeApp/src/jvmMain/kotlin/com/hdil/datacollection_researcher/io/ParticipantOutputPaths.kt:53-56 | The result is as long as the trimmed text and holds no unsafe character. |
| OutputPaths.SanitizeClean | composeApp/src/jvmMain/kotlin/com/hdil/datacollection_researcher/io/ParticipantOutputPaths.kt:53-56 | Trimmed text with no unsafe character is left as it is. |
| OutputPaths.SanitizeIdempotent | composeApp/src/jvmMain/kotlin/com/hdil/datacollection_researcher/io/ParticipantOutputPaths.kt:53-56 | Sanitizing twice is sanitizing once. |
| OutputPaths.IfBlank | composeApp/src/jvmMain/kotlin/com/hdil/datacollection_researcher/io/ParticipantOutputPaths.kt:15-27 | Blank text gives the default, and any other text is kept. |
| OutputPaths.ParticipantDirName | composeApp/src/jvmMain/kotlin/com/hdil/datacollection_researcher/io/ParticipantOutputPaths.kt:15-16 | A missing or blank id gives the sanitized `unknown`; any other id gives its trimmed, sanitized text. |
| OutputPaths.UnknownIsSafe | composeApp/src/jvmMain/kotlin/com/hdil/datacollection_researcher/io/ParticipantOutputPaths.kt:15-16 | `unknown` is safe as it stands. |
| OutputPaths.ParticipantDirNameShape | composeApp/src/jvmMain/kotlin/com/hdil/datacollection_researcher/io/ParticipantOutputPaths.kt:14-19 | Without a usable id the folder is `unknown`. With one, the folder name is non-empty and holds no unsafe character. |
| OutputPaths.ParticipantDir | composeApp/src/jvmMain/kotlin/com/hdil/datacollection_researcher/io/ParticipantOutputPaths.kt:14-19 | The participant's folder is the output folder's entry of that name, as the file system resolves it: directly under the output folder for any name but `.` and `..`, the output folder itself for `.`, and its parent for `..`. |
| OutputPaths.ChildPathInside | composeApp/src/jvmMain/kotlin/com/hdil/datacollection_researcher/io/ParticipantOutputPaths.kt:16 | `File(dir, name)` lies strictly inside `dir` exactly when the name is not `.` or `..`; those two give `dir` or a folder above it. |
| OutputPaths.DotIdsLeaveParticipantFolder | composeApp/src/jvmMain/kotlin/com/hdil/datacollection_researcher/io/ParticipantOutputPaths.kt:14-19 | An id of `.` or `..` survives sanitizing, so its files go into the output folder or the folder above it, not into a folder of their own. |
| OutputPaths.FilePrefix | composeApp/src/jvmMain/kotlin/com/hdil/datacollection_researcher/io/ParticipantOutputPaths.kt:27-37 | A prefix that is blank after sanitizing gives the default; otherwise it is the sanitized prefix. |
| OutputPaths.FilePrefixShape | composeApp/src/jvmMain/kotlin/com/hdil/datacollection_researcher/io/ParticipantOutputPaths.kt:27-37 | A blank prefix falls back to the default. Any other prefix stays a non-empty safe name. |
| OutputPaths.NumberedBelowMembers | composeApp/src/jvmMain/kotlin/com/hdil/datacollection_researcher/io/ParticipantOutputPaths.kt:45-50 | The names tried before `n` are exactly `<base> (m).<ext>` for `2 <= m < n`. |
| OutputPaths.NumberedInjective | composeApp/src/jvmMain/kotlin/com/hdil/datacollection_researcher/io/ParticipantOutputPaths.kt:47 | Different numbers give different names. |
| OutputPaths.NumberedBelowSize | composeApp/src/jvmMain/kotlin/com/hdil/datacollection_researcher/io/ParticipantOutputPaths.kt:45-50 | There are `n - 2` numbered names below `n`. |
| OutputPaths.UniqueFile | composeApp/src/jvmMain/kotlin/com/hdil/datacollection_researcher/io/ParticipantOutputPaths.kt:41-51 | The name is never one the folder already holds. It is `<base>.<ext>` when that is free; otherwise it is `<base> (n).<ext>` for the smallest `n >= 2` that is free, every smaller one being taken. |
| OutputPaths.NumberedBelowTaken | composeApp/src/jvmMain/kotlin/com/hdil/datacollection_researcher/io/ParticipantOutputPaths.kt:46-49 | Every numbered name before the chosen one is taken. |
| OutputPaths.BuildFile | composeApp/src/jvmMain/kotlin/com/hdil/datacollection_researcher/io/ParticipantOutputPaths.kt:21-39 | The file sits in the participant's folder as `ParticipantDir` resolves it. Its name is the one UniqueFile picks for the sanitized prefix or the default: free, plain when the plain name is free, and otherwise the first free numbered name. |
| OutputPaths.BuildCsvFile | composeApp/src/jvmMain/kotlin/com/hdil/datacollection_researcher/io/ParticipantOutputPaths.kt:21-29 | As `BuildFile`, with default `export` and extension `csv`, including the numbered case. |
| OutputPaths.BuildXlsxFile | composeApp/src/jvmMain/kotlin/com/hdil/datacollection_researcher/io/ParticipantOutputPaths.kt:31-39 | As `BuildFile`, with default `report` and extension `xlsx`, including the numbered case. |
| ParticipantData.Subtree | composeApp/src/jvmMain/kotlin/com/hdil/datacollection_researcher/status/ParticipantDataRepository.kt:32 | The walk counts exactly the entries at or below the folder. |
| ParticipantData.WithoutSubtree | composeApp/src/jvmMain/kotlin/com/hdil/datacollection_researcher/status/ParticipantDataRepository.kt:33 | Recursive deletion removes exactly the entries at or below the folder and keeps every other entry as it was. |
| ParticipantData.WithoutSubtreeTree | composeApp/src/jvmMain/kotlin/com/hdil/datacollection_researcher/status/ParticipantDataRepository.kt:33 | Removing a whole subtree leaves a well-formed tree. |
| ParticipantData.AfterRecursiveDelete | composeApp/src/jvmMain/kotlin/com/hdil/datacollection_researcher/status/ParticipantDataRepository.kt:33 | After a recursive delete, every entry outside the folder stays as it was, and of the folder only the entries whose deletion failed are left. |
| ParticipantData.CompleteDeletion | composeApp/src/jvmMain/kotlin/com/hdil/datacollection_researcher/status/ParticipantDataRepository.kt:33 | A recursive delete where nothing fails removes exactly the whole subtree. |
| ParticipantData.PartialDeletionTree | composeApp/src/jvmMain/kotlin/com/hdil/datacollection_researcher/status/ParticipantDataRepository.kt:33 | Whatever deletions fail, the store stays a tree. The folder itself is gone exactly when nothing below it was left. |
| ParticipantData.WithoutSubtreeExact | composeApp/src/jvmMain/kotlin/com/hdil/datacollection_researcher/status/ParticipantDataRepository.kt:32-34 | An existing folder counts itself. After the removal nothing of it is left, and everything outside it is unchanged. |
| ParticipantData.UseCaseGuard | composeApp/src/jvmMain/kotlin/com/hdil/datacollection_researcher/status/DeleteParticipantDataUseCase.kt:10-12 | A blank id is refused, and so are `(unknown)` and `unknown`, each with its message. Any other id is passed on trimmed and non-empty. |
| ParticipantData.UseCaseGuardTrimmed | composeApp/src/jvmMain/kotlin/com/hdil/datacollection_researcher/status/DeleteParticipantDataUseCase.kt:10-12 | Surrounding spaces do not change the verdict. |
| ParticipantData.TargetNameTrimmed | composeApp/src/jvmMain/kotlin/com/hdil/datacollection_researcher/status/ParticipantDataRepository.kt:19-22 | Trimming before sanitizing, as the repository does twice, is the same as trimming once. |
| ParticipantData.FileStore.constructor | composeApp/src/jvmMain/kotlin/com/hdil/datacollection_researcher/status/ParticipantDataRepository.kt:18-35 | The store starts with the given entries, which form a tree. |
| ParticipantData.TargetDir | composeApp/src/jvmMain/kotlin/com/hdil/datacollection_researcher/status/ParticipantDataRepository.kt:22-23 | The target is a child of the output folder unless the sanitized id is `.` or `..`; then it is the output folder itself or a folder above it. |
| ParticipantData.FileStore.DeleteParticipantData | composeApp/src/jvmMain/kotlin/com/hdil/datacollection_researcher/status/ParticipantDataRepository.kt:18-35 | A blank id is refused and nothing changes. The target is `File(outputDir, name)` as the file system resolves it (`TargetDir`). A missing target gives 0 and nothing changes. A file target is removed and counts 1 when its delete succeeds, and otherwise counts 0 with nothing changed. A folder target counts its entries, itself included, whatever the deletion then achieves. Afterwards only the entries whose deletion failed are left of it, and the store stays a tree. |
| ParticipantData.FileStore.DeleteTarget | composeApp/src/jvmMain/kotlin/com/hdil/datacollection_researcher/status/ParticipantDataRepository.kt:25-34 | On the resolved target: missing gives 0 and nothing changes; a file counts 1 and goes when its delete succeeds, else 0 with nothing changed; a folder counts its entries, itself included, before the delete, and only the entries whose deletion failed are left of it. Nothing outside the target changes. |
| ParticipantData.TargetDirTrimmed | composeApp/src/jvmMain/kotlin/com/hdil/datacollection_researcher/status/ParticipantDataRepository.kt:19-23 | Trimming an id the use case has already trimmed gives the same target. |
| ParticipantData.AfterRecursiveDeleteKeepsOutside | composeApp/src/jvmMain/kotlin/com/hdil/datacollection_researcher/status/ParticipantDataRepository.kt:33 | A recursive delete keeps every entry outside its folder as it was. |
| ParticipantData.FileRemovalTree | composeApp/src/jvmMain/kotlin/com/hdil/datacollection_researcher/status/ParticipantDataRepository.kt:27-29 | Removing a file keeps the store a tree. |
| ParticipantData.DeleteParticipantDataUseCase | composeApp/src/jvmMain/kotlin/com/hdil/datacollection_researcher/status/DeleteParticipantDataUseCase.kt:9-15 | A refused id leaves the store unchanged and returns the guard's message. Otherwise the repository deletes the resolved target of the trimmed id, a folder or a file. A folder's count is its number of entries, itself included, taken before the delete. |
| ParticipantData.DotIdIsGuarded | composeApp/src/jvmMain/kotlin/com/hdil/datacollection_researcher/status/DeleteParticipantDataUseCase.kt:9-11 | The guard passes `.` and `..`: they are neither blank nor the unknown group. |
| ParticipantData.DotIdsDeleteOutputFolder | composeApp/src/jvmMain/kotlin/com/hdil/datacollection_researcher/status/DeleteParticipantDataUseCase.kt:9-13 | For `.` and `..` the guard passes and the target is the output folder or, for `..`, its parent. The count then includes every entry of the output folder, and a deletion that fails nowhere removes all of them, the output folder itself included when it is held. |
| ParticipantData.SafeUseCaseGuard | composeApp/src/jvmMain/kotlin/com/hdil/datacollection_researcher/status/DeleteParticipantDataUseCase.kt:9-11 | The intended guard: it refuses what the written guard refuses and also an id whose folder name is `.` or `..`. Every id it passes names a folder strictly inside the output folder. |
| ParticipantData.SafeGuardKeepsOutside | composeApp/src/jvmMain/kotlin/com/hdil/datacollection_researcher/status/ParticipantDataRepository.kt:22-34 | Under the intended guard, the output folder and every entry outside the participant's folder survive the delete, whatever its failures. |
| ParticipantData.SafeDeleteParticipantDataUseCase | composeApp/src/jvmMain/kotlin/com/hdil/datacollection_researcher/status/DeleteParticipantDataUseCase.kt:8-14 | The use case with the intended guard: `.` and `..` are refused before the repository is touched, and otherwise nothing outside the participant's folder changes. |
| Config.DefaultOrderFieldTrimmed | composeApp/src/commonMain/kotlin/com/hdil/datacollection_researcher/config/AppConfig.kt:24 | The default order field `__name__` is trimmed and not blank. |
| Config.ResolvedDocRoot | composeApp/src/commonMain/kotlin/com/hdil/datacollection_researcher/config/AppConfig.kt:14-20 | A non-blank override wins, trimmed. Otherwise the root is the study path followed by the trimmed participant id. |
| Config.ResolvedDefaultRootNormalizes | composeApp/src/commonMain/kotlin/com/hdil/datacollection_researcher/config/AppConfig.kt:18-19 | Without an override, a blank participant id leaves a path the normalizer rejects. An id without `/` gives the four-segment participant document. |
| Config.BlankIdRejected | composeApp/src/commonMain/kotlin/com/hdil/datacollection_researcher/config/AppConfig.kt:19 | With no id, the default root has three segments and is not a document path. |
| Config.IdAccepted | composeApp/src/commonMain/kotlin/com/hdil/datacollection_researcher/config/AppConfig.kt:19 | A trimmed, non-blank id without `/` completes the participant document path. |
| Config.StudyRootText | composeApp/src/commonMain/kotlin/com/hdil/datacollection_researcher/config/AppConfig.kt:19 | The default root without its leading `/` is the study segments and the id joined by `/`. |
| DateRanges.PresetToUtcMillis | composeApp/src/jvmMain/kotlin/com/hdil/datacollection_researcher/config/DateRangeCalculatorJvm.kt:14-27 | The window ends now and starts 1, 7 or 30 days earlier. It admits exactly the instants from its start up to, but not including, now. |
| DateRanges.ErrorMessage | composeApp/src/commonMain/kotlin/com/hdil/datacollection_researcher/config/DateRangeParsing.kt:5-8 | Every input error has a non-empty message. |
| DateRanges.CustomDatesAsWritten | composeApp/src/jvmMain/kotlin/com/hdil/datacollection_researcher/config/DateRangeCalculatorJvm.kt:33-44 | No day at all gives no range. The as-written check fails only when the start day is more than one day after the end day. A passing range spans from the start day's midnight to the midnight after the end day. |
| DateRanges.AsWrittenAcceptsStartAfterEnd | composeApp/src/jvmMain/kotlin/com/hdil/datacollection_researcher/config/DateRangeCalculatorJvm.kt:39-41 | A start one day after the end passes the as-written check and gives a range that admits no instant. |
| DateRanges.AsWrittenOrdered | composeApp/src/jvmMain/kotlin/com/hdil/datacollection_researcher/config/DateRangeCalculatorJvm.kt:39-43 | Every range the as-written check accepts still has its start at or before its end. |
| DateRanges.CustomDatesToUtcMillis | composeApp/src/jvmMain/kotlin/com/hdil/datacollection_researcher/config/DateRangeCalculatorJvm.kt:33-44 | Corrected check: no day gives no range, and a start day later than the end day fails. A passing range spans from the start day's midnight to the midnight after the end day, with start before end. |
| DateRanges.CorrectionIsNarrow | composeApp/src/jvmMain/kotlin/com/hdil/datacollection_researcher/config/DateRangeCalculatorJvm.kt:39-41 | The corrected and as-written checks differ exactly when the start day is the day after the end day. |
| DateRanges.MidnightBound | composeApp/src/jvmMain/kotlin/com/hdil/datacollection_researcher/config/DateRangeCalculatorJvm.kt:36-37 | An instant is at or after a day's midnight exactly when its UTC day is that day or later. |
| DateRanges.CustomRangeDays | composeApp/src/jvmMain/kotlin/com/hdil/datacollection_researcher/config/DateRangeCalculatorJvm.kt:30-37 | A custom range admits an instant exactly when the instant's UTC day lies between the given days, both included. |
| ConfigViewModel.UserMessage | composeApp/src/jvmMain/kotlin/com/hdil/datacollection_researcher/config/AppConfigViewModel.kt:204-207 | The failure's own message is used when it is not blank, and the fallback otherwise, so the result is never blank. |
| ConfigViewModel.DocRootOf | composeApp/src/jvmMain/kotlin/com/hdil/datacollection_researcher/config/AppConfigViewModel.kt:116 | A blank override is dropped. Trimmed non-blank text is kept as it is. |
| ConfigViewModel.DocRootOfIdempotent | composeApp/src/jvmMain/kotlin/com/hdil/datacollection_researcher/config/AppConfigViewModel.kt:116 | Keeping an override twice gives the same override. |
| ConfigViewModel.OrderByOf | composeApp/src/jvmMain/kotlin/com/hdil/datacollection_researcher/config/AppConfigViewModel.kt:119 | A blank order field becomes `__name__`. Trimmed non-blank text is kept. |
| ConfigViewModel.OrderByOfIdempotent | composeApp/src/jvmMain/kotlin/com/hdil/datacollection_researcher/config/AppConfigViewModel.kt:119 | Keeping an order field twice gives the same field. |
| ConfigViewModel.NumberOr | composeApp/src/jvmMain/kotlin/com/hdil/datacollection_researcher/config/AppConfigViewModel.kt:111-112 | The result is a 32-bit number, and any rendered 32-bit number is read back as itself. |
| ConfigViewModel.SavedIsNormalized | composeApp/src/jvmMain/kotlin/com/hdil/datacollection_researcher/config/AppConfigViewModel.kt:109-121 | Whatever the form holds, the configuration `save` writes is normalized. |
| ConfigViewModel.InitialSavesDefaults | composeApp/src/jvmMain/kotlin/com/hdil/datacollection_researcher/config/AppConfigViewModel.kt:210-226 | Saving the untouched form writes the default configuration. |
| ConfigViewModel.SaveAfterLoad | composeApp/src/jvmMain/kotlin/com/hdil/datacollection_researcher/config/AppConfigViewModel.kt:28-42 | Loading a normalized configuration into any form and saving it again writes the same configuration back. |
| ConfigViewModel.SaveLoaded | composeApp/src/jvmMain/kotlin/com/hdil/datacollection_researcher/config/AppConfigViewModel.kt:30-39 | Saving right after the fields are copied in gives the loaded configuration back. |
| ConfigViewModel.RestoreKeepsConfig | composeApp/src/jvmMain/kotlin/com/hdil/datacollection_researcher/config/AppConfigViewModel.kt:163-202 | Restoring the date inputs touches nothing `save` reads. |
| ConfigViewModel.RestorePreset | composeApp/src/jvmMain/kotlin/com/hdil/datacollection_researcher/config/AppConfigViewModel.kt:172-187 | A preset window saved within ten minutes of the load comes back as that preset, with the custom inputs empty. |
| ConfigViewModel.RestoreCustom | composeApp/src/jvmMain/kotlin/com/hdil/datacollection_researcher/config/AppConfigViewModel.kt:190-201 | A custom window of whole days comes back as its first and last day. The exception is a window that ends near now and is 1, 7 or 30 days long. |
| ConfigViewModel.WholeDaysNotNearPreset | composeApp/src/jvmMain/kotlin/com/hdil/datacollection_researcher/config/AppConfigViewModel.kt:178-184 | A window of whole days is within three minutes of a preset's length only when it is exactly 1, 7 or 30 days. |
| ConfigViewModel.RestoreDayAsPreset | composeApp/src/jvmMain/kotlin/com/hdil/datacollection_researcher/config/AppConfigViewModel.kt:172-187 | A custom single day ending within ten minutes of now is shown as the one-day preset after a reload. |
| ConfigViewModel.CustomRange | composeApp/src/jvmMain/kotlin/com/hdil/datacollection_researcher/config/AppConfigViewModel.kt:137-161 | An unparseable start field gives its format error, then an unparseable end field gives its own. Otherwise the result is the range of the typed days, or the start-after-end message. |
| ConfigViewModel.BlankFieldsClear | composeApp/src/jvmMain/kotlin/com/hdil/datacollection_researcher/config/AppConfigViewModel.kt:139-140 | Two blank fields clear the range. |
| ConfigViewModel.CustomRangeAdmits | composeApp/src/jvmMain/kotlin/com/hdil/datacollection_researcher/config/AppConfigViewModel.kt:137-161 | An accepted custom range admits exactly the instants whose UTC day lies between the typed days, both included. |
| ConfigViewModel.RestoreThenRecalc | composeApp/src/jvmMain/kotlin/com/hdil/datacollection_researcher/config/AppConfigViewModel.kt:137-202 | Custom inputs restored by a reload parse back to the stored range, provided dates render and parse back. |
| ConfigViewModel.AppConfigViewModel.constructor | composeApp/src/jvmMain/kotlin/com/hdil/datacollection_researcher/config/AppConfigViewModel.kt:21 | The form starts in its initial state. |
| ConfigViewModel.AppConfigViewModel.Load | composeApp/src/jvmMain/kotlin/com/hdil/datacollection_researcher/config/AppConfigViewModel.kt:24-48 | On success the form takes the configuration's fields and restores its date inputs. On failure it keeps its fields and shows the message. Either way loading ends. |
| ConfigViewModel.AppConfigViewModel.OnParticipantIdChanged | composeApp/src/jvmMain/kotlin/com/hdil/datacollection_researcher/config/AppConfigViewModel.kt:50-52 | Only the participant id changes. |
| ConfigViewModel.AppConfigViewModel.OnDocRootOverrideChanged | composeApp/src/jvmMain/kotlin/com/hdil/datacollection_researcher/config/AppConfigViewModel.kt:54-56 | Only the override changes. |
| ConfigViewModel.AppConfigViewModel.SelectPreset | composeApp/src/jvmMain/kotlin/com/hdil/datacollection_researcher/config/AppConfigViewModel.kt:58-69 | The preset's window ending now is selected, and the inputs and error are cleared. The window admits the last instant before now but not now itself. |
| ConfigViewModel.AppConfigViewModel.OnCustomStartChanged | composeApp/src/jvmMain/kotlin/com/hdil/datacollection_researcher/config/AppConfigViewModel.kt:71-74 | The start text is set, the preset cleared, and the range recalculated. |
| ConfigViewModel.AppConfigViewModel.OnCustomEndChanged | composeApp/src/jvmMain/kotlin/com/hdil/datacollection_researcher/config/AppConfigViewModel.kt:76-79 | The end text is set, the preset cleared, and the range recalculated. |
| ConfigViewModel.AppConfigViewModel.ClearDateRange | composeApp/src/jvmMain/kotlin/com/hdil/datacollection_researcher/config/AppConfigViewModel.kt:81-91 | No preset, no inputs, no window, no error. |
| ConfigViewModel.AppConfigViewModel.OnLimitChanged | composeApp/src/jvmMain/kotlin/com/hdil/datacollection_researcher/config/AppConfigViewModel.kt:93-95 | Only the limit text changes. |
| ConfigViewModel.AppConfigViewModel.OnOrderByFieldChanged | composeApp/src/jvmMain/kotlin/com/hdil/datacollection_researcher/config/AppConfigViewModel.kt:97-99 | Only the order field text changes. |
| ConfigViewModel.AppConfigViewModel.OnMaxBatchChanged | composeApp/src/jvmMain/kotlin/com/hdil/datacollection_researcher/config/AppConfigViewModel.kt:101-103 | Only the batch text changes. |
| ConfigViewModel.AppConfigViewModel.Save | composeApp/src/jvmMain/kotlin/com/hdil/datacollection_researcher/config/AppConfigViewModel.kt:105-131 | The configuration handed on is the normalized form. The form then shows the saved message, or the failure's message. |
| ConfigViewModel.AppConfigViewModel.RecalcCustomDateRange | composeApp/src/jvmMain/kotlin/com/hdil/datacollection_researcher/config/AppConfigViewModel.kt:137-161 | A valid pair of fields replaces the range and clears the error. Otherwise the error is set and the range kept. |
| ExcelReport.ReportInputIff | composeApp/src/jvmMain/kotlin/com/hdil/datacollection_researcher/excel/DesktopResearcherExcelGenerator.kt:36-38 | A report input is exactly a file whose name ends with `_korea_time.csv`; the separate `csv` extension test adds nothing. |
| ExcelReport.LastDotOfCsv | composeApp/src/jvmMain/kotlin/com/hdil/datacollection_researcher/excel/DesktopResearcherExcelGenerator.kt:37 | A name ending in `.csv` has the extension `csv`. |
| ExcelReport.SelectSorted | composeApp/src/jvmMain/kotlin/com/hdil/datacollection_researcher/excel/DesktopResearcherExcelGenerator.kt:35-40 | The chosen entries are sorted by name and are exactly the entries that pass the test, each as many times as it is listed. Two same-named files therefore both stay. |
| Collections.SortByStable | composeApp/src/jvmMain/kotlin/com/hdil/datacollection_researcher/excel/DesktopResearcherExcelGenerator.kt:40 | `sortedBy` is stable: elements of equal rank, such as files of one name, keep their input order. |
| ExcelReport.ReportInputs | composeApp/src/jvmMain/kotlin/com/hdil/datacollection_researcher/excel/DesktopResearcherExcelGenerator.kt:35-45 | No input is an error. Otherwise the inputs are non-empty, sorted by name, and exactly the folder's report inputs, each as many times as it is listed. Two same-named inputs therefore both reach the workbook, where SharedKeyRefused applies. |
| ExcelReport.TrimKeeps | composeApp/src/jvmMain/kotlin/com/hdil/datacollection_researcher/excel/DesktopResearcherExcelGenerator.kt:167 | Trimming keeps only characters the text had. |
| ExcelReport.CleanSheetText | composeApp/src/jvmMain/kotlin/com/hdil/datacollection_researcher/excel/DesktopResearcherExcelGenerator.kt:167 | No character Excel refuses in a sheet name is left. |
| ExcelReport.Take | composeApp/src/jvmMain/kotlin/com/hdil/datacollection_researcher/excel/DesktopResearcherExcelGenerator.kt:106-168 | `take(n)` gives a prefix of at most `n` elements, and all of a short list. |
| ExcelReport.FallbackSafe | composeApp/src/jvmMain/kotlin/com/hdil/datacollection_researcher/excel/DesktopResearcherExcelGenerator.kt:168 | `Sheet` is a safe, non-blank name. |
| ExcelReport.SafeSheetName | composeApp/src/jvmMain/kotlin/com/hdil/datacollection_researcher/excel/DesktopResearcherExcelGenerator.kt:165-169 | A sheet name is at most 31 characters, holds no refused character and is never blank. |
| ExcelReport.SafeSheetNameKeeps | composeApp/src/jvmMain/kotlin/com/hdil/datacollection_researcher/excel/DesktopResearcherExcelGenerator.kt:165-169 | A short, clean, trimmed name is kept as it is. |
| ExcelReport.SafeSheetNameFallback | composeApp/src/jvmMain/kotlin/com/hdil/datacollection_researcher/excel/DesktopResearcherExcelGenerator.kt:168 | Text made only of whitespace and refused characters names the sheet `Sheet`. |
| ExcelReport.SubstringBefore | composeApp/src/jvmMain/kotlin/com/hdil/datacollection_researcher/excel/DesktopResearcherExcelGenerator.kt:160 | The result is the text before the first `_export_`, or the whole text when there is none. |
| ExcelReport.NonBlankTokens | composeApp/src/jvmMain/kotlin/com/hdil/datacollection_researcher/excel/DesktopResearcherExcelGenerator.kt:161 | Every token kept is a non-blank piece of the `__` split. |
| ExcelReport.ExtractCollectionKey | composeApp/src/jvmMain/kotlin/com/hdil/datacollection_researcher/excel/DesktopResearcherExcelGenerator.kt:159-163 | The key is the last non-blank `__` token of the part before `_export_`, or that part itself when no token is left. |
| ExcelReport.MarkAfterPair | composeApp/src/jvmMain/kotlin/com/hdil/datacollection_researcher/excel/DesktopResearcherExcelGenerator.kt:160 | In `a__b_export_...` the first `_export_` is the one after `b`. |
| ExcelReport.ExporterNameKey | composeApp/src/jvmMain/kotlin/com/hdil/datacollection_researcher/excel/DesktopResearcherExcelGenerator.kt:159-163 | The name the exporter and analyzer give collection `b` under `a` gives back `b`. |
| ExcelReport.LoadCsv | composeApp/src/jvmMain/kotlin/com/hdil/datacollection_researcher/excel/DesktopResearcherExcelGenerator.kt:144-157 | The key comes from the file name. The record count is the number of data rows and the column count the header size. An empty file has neither, and any other file has at least one column. |
| ExcelReport.RawSheetOf | composeApp/src/jvmMain/kotlin/com/hdil/datacollection_researcher/excel/DesktopResearcherExcelGenerator.kt:94-117 | The sheet is named after `<key> (raw)` and made safe, and its header is the file's header. Its rows are at most 50 000 taken from the top, all of them when fewer. At most 25 columns are auto-sized. |
| ExcelReport.SummarySheet | composeApp/src/jvmMain/kotlin/com/hdil/datacollection_researcher/excel/DesktopResearcherExcelGenerator.kt:73-92 | The rows are participantId, generatedAtUtc and fileCount, a blank row and the table header, then one row per input in order. |
| ExcelReport.Names | composeApp/src/jvmMain/kotlin/com/hdil/datacollection_researcher/excel/DesktopResearcherExcelGenerator.kt:90 | The names of the inputs, in order. |
| ExcelReport.LoadAll | composeApp/src/jvmMain/kotlin/com/hdil/datacollection_researcher/excel/DesktopResearcherExcelGenerator.kt:86-87 | Each input is loaded in order. |
| ExcelReport.BuildWorkbook | composeApp/src/jvmMain/kotlin/com/hdil/datacollection_researcher/excel/DesktopResearcherExcelGenerator.kt:55-121 | The Summary has five fixed rows plus one per input, and there is one raw sheet per input, made from the same loaded file. |
| ExcelReport.SummaryMatchesSheets | composeApp/src/jvmMain/kotlin/com/hdil/datacollection_researcher/excel/DesktopResearcherExcelGenerator.kt:91-106 | A summary row's column count is its sheet's header size. Its record count is the sheet's row count unless the 50 000 cap cut the rows. |
| ExcelReport.SheetNames | composeApp/src/jvmMain/kotlin/com/hdil/datacollection_researcher/excel/DesktopResearcherExcelGenerator.kt:60-96 | Sheets are created with Summary first, then one raw sheet per input in input order. |
| ExcelReport.FirstRefused | composeApp/src/jvmMain/kotlin/com/hdil/datacollection_researcher/excel/DesktopResearcherExcelGenerator.kt:95-96 | It finds the first sheet whose creation the library refuses (a name equal to an earlier one ignoring case, or beginning or ending with an apostrophe), or none when every sheet is accepted. |
| ExcelReport.SharedKeyRefused | composeApp/src/jvmMain/kotlin/com/hdil/datacollection_researcher/excel/DesktopResearcherExcelGenerator.kt:95-96 | Two inputs with the same collection key give two raw sheets of one name, so the workbook is refused. |
| ExcelReport.Generate | composeApp/src/jvmMain/kotlin/com/hdil/datacollection_researcher/excel/DesktopResearcherExcelGenerator.kt:25-134 | A missing output folder is an error, and so is a folder without inputs. A sheet name the library refuses is an error carrying its message. Otherwise the workbook of the inputs goes to the name UniqueFile picks in the participant's folder. |
| Credentials.EscapeJson | composeApp/src/jvmMain/kotlin/com/hdil/datacollection_researcher/credentials/DesktopCredentialsRepository.kt:95-96 | Text without backslash or quote is unchanged, and text without a quote gets none. That each quote and backslash is escaped with a backslash is stated by EscapeJsonCons. |
| Credentials.EscapeJsonCons | composeApp/src/jvmMain/kotlin/com/hdil/datacollection_researcher/credentials/DesktopCredentialsRepository.kt:95-96 | Escaping works character by character: a backslash or a quote becomes a backslash followed by itself, and any other character stays. |
| Credentials.EscapeJsonChars | composeApp/src/jvmMain/kotlin/com/hdil/datacollection_researcher/credentials/DesktopCredentialsRepository.kt:95-96 | The two replacements together escape each character on its own. |
| Credentials.EscapeJsonLonger | composeApp/src/jvmMain/kotlin/com/hdil/datacollection_researcher/credentials/DesktopCredentialsRepository.kt:95-96 | Escaping never shortens text, and lengthens any text that has a backslash. |
| Credentials.ToJson | composeApp/src/jvmMain/kotlin/com/hdil/datacollection_researcher/credentials/DesktopCredentialsRepository.kt:92-93 | The text is the one-key object with the escaped path between its head and tail. |
| Credentials.NextChar | composeApp/src/jvmMain/kotlin/com/hdil/datacollection_researcher/credentials/DesktopCredentialsRepository.kt:83-87 | It finds the first occurrence of the character from the start index, or none when there is no such occurrence. |
| Credentials.ValueStart | composeApp/src/jvmMain/kotlin/com/hdil/datacollection_researcher/credentials/DesktopCredentialsRepository.kt:81-86 | The value starts just after a quote, and a text without the key has no value. |
| Credentials.ParseCredentialPathOrNull | composeApp/src/jvmMain/kotlin/com/hdil/datacollection_researcher/credentials/DesktopCredentialsRepository.kt:78-90 | As written: no key, colon or opening quote means no path. A path found holds no quote and is the raw text up to the next quote, with no unescaping. |
| Credentials.ParseCredentialPath | composeApp/src/jvmMain/kotlin/com/hdil/datacollection_researcher/credentials/DesktopCredentialsRepository.kt:78-90 | Corrected: the same search for the value, whose body is then unescaped up to the closing quote. |
| Credentials.ParsersAgreeWithoutBackslash | composeApp/src/jvmMain/kotlin/com/hdil/datacollection_researcher/credentials/DesktopCredentialsRepository.kt:78-90 | On text without backslashes the corrected reader and the as-written reader agree. |
| Credentials.ReadEscaped | composeApp/src/jvmMain/kotlin/com/hdil/datacollection_researcher/credentials/DesktopCredentialsRepository.kt:95-96 | Reading escaped text followed by a quote gives the text back. |
| Credentials.ValueStartOfHead | composeApp/src/jvmMain/kotlin/com/hdil/datacollection_researcher/credentials/DesktopCredentialsRepository.kt:81-93 | In text written by `toJson`, the value starts right after the head. |
| Credentials.ParseToJsonAsWritten | composeApp/src/jvmMain/kotlin/com/hdil/datacollection_researcher/credentials/DesktopCredentialsRepository.kt:78-96 | The round trip as written returns a quote-free path escaped, with its backslashes doubled. |
| Credentials.ParseToJsonPlain | composeApp/src/jvmMain/kotlin/com/hdil/datacollection_researcher/credentials/DesktopCredentialsRepository.kt:78-96 | A path without backslash or quote survives the round trip as written. |
| Credentials.AsWrittenLosesBackslashPaths | composeApp/src/jvmMain/kotlin/com/hdil/datacollection_researcher/credentials/DesktopCredentialsRepository.kt:78-96 | A path with a backslash does not survive the round trip as written. |
| Credentials.AsWrittenMisreadsWindowsPath | composeApp/src/jvmMain/kotlin/com/hdil/datacollection_researcher/credentials/DesktopCredentialsRepository.kt:78-96 | `a\b` is read back as something else. |
| Credentials.ParseToJsonRoundTrip | composeApp/src/jvmMain/kotlin/com/hdil/datacollection_researcher/credentials/DesktopCredentialsRepository.kt:78-96 | With the corrected reader every path comes back exactly, backslashes and quotes included. |
| Credentials.LoadStatus | composeApp/src/jvmMain/kotlin/com/hdil/datacollection_researcher/credentials/DesktopCredentialsRepository.kt:21-32 | A missing or unreadable config file is NotSaved. Otherwise the status is Saved exactly when the corrected reader finds a path, and it carries that path. |
| Credentials.LoadStatusAsWritten | composeApp/src/jvmMain/kotlin/com/hdil/datacollection_researcher/credentials/DesktopCredentialsRepository.kt:21-32 | The same, with the as-written reader. |
| Credentials.CredentialsStore.constructor | composeApp/src/jvmMain/kotlin/com/hdil/datacollection_researcher/credentials/DesktopCredentialsRepository.kt:14-19 | The store starts with the given config text and remembered path. |
| Credentials.CredentialsStore.SaveFromSelectedFile | composeApp/src/jvmMain/kotlin/com/hdil/datacollection_researcher/credentials/DesktopCredentialsRepository.kt:34-76 | In order, a missing file, a folder, an unreadable file, text that does not start with `{` and an app folder that cannot be made are each refused with their own message, and nothing changes. Otherwise the config holds `toJson` of the path, the path is remembered, and the status is Saved with it. |
| Credentials.SaveThenLoad | composeApp/src/jvmMain/kotlin/com/hdil/datacollection_researcher/credentials/DesktopCredentialsRepository.kt:21-65 | After a save, loading the status with the corrected reader gives the saved path, whatever characters it holds. |
| Credentials.SaveThenLoadAsWritten | composeApp/src/jvmMain/kotlin/com/hdil/datacollection_researcher/credentials/DesktopCredentialsRepository.kt:21-65 | With the as-written reader, a saved path comes back escaped. |
| ProtocolModels.BlockTypeOf | composeApp/src/jvmMain/kotlin/com/hdil/datacollection_researcher/builder/model/ProtocolModels.kt:47-56 | Reading a block kind from text succeeds only for a serial name, and it gives the kind written under that name. |
| ProtocolModels.SerialNameRoundTrip | composeApp/src/jvmMain/kotlin/com/hdil/datacollection_researcher/builder/model/ProtocolModels.kt:47-56 | Every block kind is read back from its own serial name. |
| ProtocolModels.SerialNamesDistinct | composeApp/src/jvmMain/kotlin/com/hdil/datacollection_researcher/builder/model/ProtocolModels.kt:47-56 | Two different block kinds never share a serial name. |
| ProtocolModels.AllBlockTypes | composeApp/src/jvmMain/kotlin/com/hdil/datacollection_researcher/builder/model/ProtocolModels.kt:47-56 | There are exactly seven block kinds, each listed once. |
| ProtocolModels.NewBlock | composeApp/src/jvmMain/kotlin/com/hdil/datacollection_researcher/builder/model/ProtocolModels.kt:38-45 | A block built from an id and a kind has no properties, no children and no visibility rule. |
| ProtocolModels.DocumentWithScreens | composeApp/src/jvmMain/kotlin/com/hdil/datacollection_researcher/builder/model/ProtocolModels.kt:14-29 | A document built from screens alone has schema version 1, the default id and title, and the 14-day settings that collect everything. |
| Builder.InsertAt | composeApp/src/jvmMain/kotlin/com/hdil/datacollection_researcher/builder/vm/BuilderViewModel.kt:147-149 | Inserting at k puts the element at k, keeps the elements before k, and shifts the rest up by one. |
| Builder.RemoveAt | composeApp/src/jvmMain/kotlin/com/hdil/datacollection_researcher/builder/vm/BuilderViewModel.kt:171-172 | Removing at k keeps the elements before k and shifts the rest down by one. |
| Builder.InsertRemove | composeApp/src/jvmMain/kotlin/com/hdil/datacollection_researcher/builder/vm/BuilderViewModel.kt:147-149 | Removing what was just inserted gives the list back; the multiset grows by exactly the new element. |
| Builder.Clamp | composeApp/src/jvmMain/kotlin/com/hdil/datacollection_researcher/builder/vm/BuilderViewModel.kt:148 | A missing index means the end. A given index is clamped into 0..size. |
| Builder.IndexOfId | composeApp/src/jvmMain/kotlin/com/hdil/datacollection_researcher/builder/vm/BuilderViewModel.kt:162-163 | The result is the first position holding the id, or none when no block has it. |
| Builder.IndexOfIdAt | composeApp/src/jvmMain/kotlin/com/hdil/datacollection_researcher/builder/vm/BuilderViewModel.kt:162 | The first block with the id at position k makes k the found index. |
| Builder.MoveTarget | composeApp/src/jvmMain/kotlin/com/hdil/datacollection_researcher/builder/vm/BuilderViewModel.kt:165-168 | Up goes one place lower, but not below 0. Down goes one place higher, but not past the last index. |
| Builder.MoveBlock | composeApp/src/jvmMain/kotlin/com/hdil/datacollection_researcher/builder/vm/BuilderViewModel.kt:156-178 | Moving keeps the length and the multiset of root blocks. |
| Builder.RemoveInsertBack | composeApp/src/jvmMain/kotlin/com/hdil/datacollection_researcher/builder/vm/BuilderViewModel.kt:171-173 | Taking an element out and putting it back keeps the multiset. |
| Builder.MoveIsSwap | composeApp/src/jvmMain/kotlin/com/hdil/datacollection_researcher/builder/vm/BuilderViewModel.kt:171-173 | Taking an element out and putting it back one place away exchanges it with that neighbour. |
| Builder.MoveBlockCases | composeApp/src/jvmMain/kotlin/com/hdil/datacollection_researcher/builder/vm/BuilderViewModel.kt:162-174 | An unknown id leaves the list unchanged, and so does a block already at the end it moves toward. Otherwise the block trades places with its neighbour. |
| Builder.SwapTwice | composeApp/src/jvmMain/kotlin/com/hdil/datacollection_researcher/builder/vm/BuilderViewModel.kt:171-173 | Exchanging the same two neighbours twice restores the list. |
| Builder.MovedUpIsFirst | composeApp/src/jvmMain/kotlin/com/hdil/datacollection_researcher/builder/vm/BuilderViewModel.kt:162-173 | After a block moves up, the first block with its id is one place lower. |
| Builder.MoveUpThenDown | composeApp/src/jvmMain/kotlin/com/hdil/datacollection_researcher/builder/vm/BuilderViewModel.kt:156-178 | Moving a block up and then down restores the list, unless the block was already first. |
| Builder.DeleteBlocks | composeApp/src/jvmMain/kotlin/com/hdil/datacollection_researcher/builder/vm/BuilderViewModel.kt:185 | The result keeps exactly the blocks whose id differs. |
| Builder.DeleteBlocksAbsent | composeApp/src/jvmMain/kotlin/com/hdil/datacollection_researcher/builder/vm/BuilderViewModel.kt:185 | Deleting an id no block has changes nothing. |
| Builder.DeleteBlocksIdempotent | composeApp/src/jvmMain/kotlin/com/hdil/datacollection_researcher/builder/vm/BuilderViewModel.kt:185 | Deleting twice is the same as deleting once. |
| Builder.EditBlocks | composeApp/src/jvmMain/kotlin/com/hdil/datacollection_researcher/builder/vm/BuilderViewModel.kt:202-205 | Each root block with the id is edited. Every other block is kept. The length is unchanged. |
| Builder.EditBlocksAbsent | composeApp/src/jvmMain/kotlin/com/hdil/datacollection_researcher/builder/vm/BuilderViewModel.kt:202-205 | Editing by an id no block has changes nothing. |
| Builder.WithPropEffect | composeApp/src/jvmMain/kotlin/com/hdil/datacollection_researcher/builder/vm/BuilderViewModel.kt:204 | After the put, the key maps to the value. Every other key is unchanged. The id and children stay. |
| Builder.VisibilityFor | composeApp/src/jvmMain/kotlin/com/hdil/datacollection_researcher/builder/vm/BuilderViewModel.kt:223 | A blank expression gives no rule. Any other expression gives a rule holding that expression. |
| Builder.EditScreens | composeApp/src/jvmMain/kotlin/com/hdil/datacollection_researcher/builder/vm/BuilderViewModel.kt:144-151 | Only screens with the selected id get new root blocks. Every screen keeps its position, id and title. |
| Builder.EditScreensKeeps | composeApp/src/jvmMain/kotlin/com/hdil/datacollection_researcher/builder/vm/BuilderViewModel.kt:144-151 | Each screen keeps its id and title. A screen with another id is unchanged. A screen with the selected id gets the edited root list. |
| Builder.MergedProps | composeApp/src/jvmMain/kotlin/com/hdil/datacollection_researcher/builder/vm/BuilderViewModel.kt:140 | The merged properties are the defaults with the override laid over them. Override values win, other defaults stay, and no other key appears. |
| Builder.GenerateId | composeApp/src/jvmMain/kotlin/com/hdil/datacollection_researcher/builder/vm/BuilderViewModel.kt:242-253 | The id is the kind's prefix, a dash, and the first eight characters of the UUID text, or all of it when shorter. |
| Builder.NewRootBlock | composeApp/src/jvmMain/kotlin/com/hdil/datacollection_researcher/builder/vm/BuilderViewModel.kt:137-141 | The new block has the generated id, the given kind, the merged properties, no children and no visibility rule. |
| Builder.InsertBlockEffect | composeApp/src/jvmMain/kotlin/com/hdil/datacollection_researcher/builder/vm/BuilderViewModel.kt:143-151 | After an insert, the new block is at the clamped index. Removing it there gives the old list back, and the multiset grows by that block. |
| Builder.FirstScreenId | composeApp/src/jvmMain/kotlin/com/hdil/datacollection_researcher/builder/vm/BuilderViewModel.kt:83-97 | The first screen's id, or none for a document with no screens. |
| Builder.FirstRootBlockId | composeApp/src/jvmMain/kotlin/com/hdil/datacollection_researcher/builder/vm/BuilderViewModel.kt:84 | The id of the first root block of the first screen, or none when there is no such block. |
| Builder.EditDocument | composeApp/src/jvmMain/kotlin/com/hdil/datacollection_researcher/builder/vm/BuilderViewModel.kt:144-152 | Version, id, title and settings stay. Every screen keeps its place, id and title. A screen with another id is unchanged, and the selected screen's root list is the edit of its old one. |
| Builder.BuilderViewModel.constructor | composeApp/src/jvmMain/kotlin/com/hdil/datacollection_researcher/builder/vm/BuilderViewModel.kt:80-86 | The first screen and its first root block start selected. |
| Builder.BuilderViewModel.SetDocument | composeApp/src/jvmMain/kotlin/com/hdil/datacollection_researcher/builder/vm/BuilderViewModel.kt:93-101 | The new document is shown with its first screen selected and no block selected. |
| Builder.BuilderViewModel.SelectScreen | composeApp/src/jvmMain/kotlin/com/hdil/datacollection_researcher/builder/vm/BuilderViewModel.kt:103-110 | The given screen is selected and the block selection is cleared. |
| Builder.BuilderViewModel.SelectBlock | composeApp/src/jvmMain/kotlin/com/hdil/datacollection_researcher/builder/vm/BuilderViewModel.kt:112-114 | Only the block selection changes. |
| Builder.BuilderViewModel.AddBlockToRootAt | composeApp/src/jvmMain/kotlin/com/hdil/datacollection_researcher/builder/vm/BuilderViewModel.kt:131-154 | With no screen selected, nothing changes. Otherwise the new block is inserted at the clamped index of the selected screen's root list and becomes the selected block. |
| Builder.BuilderViewModel.AddBlockToRootWith | composeApp/src/jvmMain/kotlin/com/hdil/datacollection_researcher/builder/vm/BuilderViewModel.kt:120-125 | Same as AddBlockToRootAt with no index, so the block goes at the end. |
| Builder.BuilderViewModel.AddBlockToRoot | composeApp/src/jvmMain/kotlin/com/hdil/datacollection_researcher/builder/vm/BuilderViewModel.kt:116-118 | Appending with an empty override. |
| Builder.BuilderViewModel.MoveRootBlock | composeApp/src/jvmMain/kotlin/com/hdil/datacollection_researcher/builder/vm/BuilderViewModel.kt:156-178 | With no screen selected, nothing changes. Otherwise the selected screen's root list is moved as MoveBlock says, and the selection stays. |
| Builder.BuilderViewModel.DeleteRootBlock | composeApp/src/jvmMain/kotlin/com/hdil/datacollection_researcher/builder/vm/BuilderViewModel.kt:180-192 | With no screen selected, nothing changes. Otherwise blocks with the id are removed from the selected screen. The block selection is cleared only when it was that id. |
| Builder.BuilderViewModel.UpdateSelectedProp | composeApp/src/jvmMain/kotlin/com/hdil/datacollection_researcher/builder/vm/BuilderViewModel.kt:194-211 | Without a selected screen and block, nothing changes. Otherwise that screen's root blocks with the selected id get the key set to the value. |
| Builder.BuilderViewModel.UpdateSelectedVisibilityExpression | composeApp/src/jvmMain/kotlin/com/hdil/datacollection_researcher/builder/vm/BuilderViewModel.kt:213-231 | Without a selected screen and block, nothing changes. Otherwise that screen's root blocks with the selected id get the rule VisibilityFor gives for the expression. |
| ProtocolValidator.SchemaIssues | composeApp/src/jvmMain/kotlin/com/hdil/datacollection_researcher/builder/validate/ProtocolValidator.kt:19-25 | The version check reports nothing exactly when the version is 1. Otherwise it reports one error located at `schemaVersion`. |
| ProtocolValidator.Entries | composeApp/src/jvmMain/kotlin/com/hdil/datacollection_researcher/builder/validate/ProtocolValidator.kt:44-67 | A tree's preorder listing starts with the tree's root block, at its location `<prefix>/<id>`. |
| ProtocolValidator.ForestEntriesAppend | composeApp/src/jvmMain/kotlin/com/hdil/datacollection_researcher/builder/validate/ProtocolValidator.kt:36-66 | The listing of a list of trees is the listings of its parts, one after the other. |
| ProtocolValidator.ScanAppend | composeApp/src/jvmMain/kotlin/com/hdil/datacollection_researcher/builder/validate/ProtocolValidator.kt:44-67 | Checking two stretches of blocks is checking the first, then the second, with the state it leaves. |
| ProtocolValidator.ScanTreeIsScan | composeApp/src/jvmMain/kotlin/com/hdil/datacollection_researcher/builder/validate/ProtocolValidator.kt:44-67 | The recursive walk checks exactly the tree's blocks, in preorder, sharing one set of seen ids. |
| ProtocolValidator.ScanForestIsScan | composeApp/src/jvmMain/kotlin/com/hdil/datacollection_researcher/builder/validate/ProtocolValidator.kt:36-66 | Walking a list of trees checks the blocks of all of them in preorder. |
| ProtocolValidator.CheckHead | composeApp/src/jvmMain/kotlin/com/hdil/datacollection_researcher/builder/validate/ProtocolValidator.kt:50-62 | A blank id is an error. A repeated id is an error. A non-blank id is added to the seen set. A blank visibility expression is a warning at `<loc>/visibility`. |
| ProtocolValidator.ValidateBlockTree | composeApp/src/jvmMain/kotlin/com/hdil/datacollection_researcher/builder/validate/ProtocolValidator.kt:44-67 | The walk leaves the seen ids and issues the recursive reference gives. |
| ProtocolValidator.ValidateForest | composeApp/src/jvmMain/kotlin/com/hdil/datacollection_researcher/builder/validate/ProtocolValidator.kt:36-38 | Walking the root trees in order leaves what the reference gives. |
| ProtocolValidator.ValidateScreen | composeApp/src/jvmMain/kotlin/com/hdil/datacollection_researcher/builder/validate/ProtocolValidator.kt:29-38 | A blank screen id is an error, and so is a repeated one. Then the root trees are walked with a fresh set of block ids. |
| ProtocolValidator.Validate | composeApp/src/jvmMain/kotlin/com/hdil/datacollection_researcher/builder/validate/ProtocolValidator.kt:16-42 | The version check comes first, then each screen in order, exactly as the reference `Issues` gives. |
| ProtocolValidator.ScanExtends | composeApp/src/jvmMain/kotlin/com/hdil/datacollection_researcher/builder/validate/ProtocolValidator.kt:44-67 | Checking blocks only appends issues and only adds ids. |
| ProtocolValidator.ScanForestExtends | composeApp/src/jvmMain/kotlin/com/hdil/datacollection_researcher/builder/validate/ProtocolValidator.kt:36-38 | Walking trees only appends issues. |
| ProtocolValidator.ScanScreensExtends | composeApp/src/jvmMain/kotlin/com/hdil/datacollection_researcher/builder/validate/ProtocolValidator.kt:28-39 | Checking screens only appends issues. |
| ProtocolValidator.ScanCleanIff | composeApp/src/jvmMain/kotlin/com/hdil/datacollection_researcher/builder/validate/ProtocolValidator.kt:44-67 | Blocks add no issue exactly when every id is non-blank and new, no two blocks share an id, and no visibility expression is blank. |
| ProtocolValidator.CheckScreenCleanIff | composeApp/src/jvmMain/kotlin/com/hdil/datacollection_researcher/builder/validate/ProtocolValidator.kt:28-39 | A screen adds no issue exactly when its id is non-blank and new and its block trees are valid. |
| ProtocolValidator.ScreensCleanStep | composeApp/src/jvmMain/kotlin/com/hdil/datacollection_researcher/builder/validate/ProtocolValidator.kt:28-39 | The screens from i on are clean exactly when the first is clean and the rest are clean of its id as well. |
| ProtocolValidator.ScanScreensCleanIff | composeApp/src/jvmMain/kotlin/com/hdil/datacollection_researcher/builder/validate/ProtocolValidator.kt:28-39 | The screens add no issue exactly when each is in order, none has an id seen before, and no two share an id. |
| ProtocolValidator.IssuesEmptyIff | composeApp/src/jvmMain/kotlin/com/hdil/datacollection_researcher/builder/validate/ProtocolValidator.kt:16-42 | Validation returns no issue exactly for a valid document: version 1, and screens that are each in order with distinct ids. |
| ProtocolValidator.SchemaIssueFirst | composeApp/src/jvmMain/kotlin/com/hdil/datacollection_researcher/builder/validate/ProtocolValidator.kt:19-25 | An unsupported version is the first issue reported. |
| ProtocolValidator.ScanFlagsSeen | composeApp/src/jvmMain/kotlin/com/hdil/datacollection_researcher/builder/validate/ProtocolValidator.kt:54-55 | A block whose non-blank id was seen earlier is reported as a repeat, at its own location. |
| ProtocolValidator.ScanFlagsRepeat | composeApp/src/jvmMain/kotlin/com/hdil/datacollection_researcher/builder/validate/ProtocolValidator.kt:54-55 | Of two blocks with the same non-blank id, the later one is reported. |
| ProtocolValidator.RootEntryIndex | composeApp/src/jvmMain/kotlin/com/hdil/datacollection_researcher/builder/validate/ProtocolValidator.kt:36-50 | Each root block's own entry is in the listing, at its location under the prefix. |
| ProtocolValidator.RootEntryOrder | composeApp/src/jvmMain/kotlin/com/hdil/datacollection_researcher/builder/validate/ProtocolValidator.kt:36-38 | Root blocks' entries come in the roots' order. |
| ProtocolValidator.ScanScreensSplit | composeApp/src/jvmMain/kotlin/com/hdil/datacollection_researcher/builder/validate/ProtocolValidator.kt:28 | The scan over the screens can be split at any screen. |
| ProtocolValidator.ScreenIssueIncluded | composeApp/src/jvmMain/kotlin/com/hdil/datacollection_researcher/builder/validate/ProtocolValidator.kt:28-41 | Every issue found on one screen is among the document's issues. |
| ProtocolValidator.RepeatedRootIdReported | composeApp/src/jvmMain/kotlin/com/hdil/datacollection_researcher/builder/validate/ProtocolValidator.kt:54-55 | Two root blocks of one screen with the same non-blank id: the later one is reported as a repeated block id error, at its own location. |
| ProtocolValidator.ScanScreensIds | composeApp/src/jvmMain/kotlin/com/hdil/datacollection_researcher/builder/validate/ProtocolValidator.kt:29-33 | After the screens, the seen set holds exactly the ids seen before plus the screens' non-blank ids. |
| ProtocolValidator.RepeatedScreenIdReported | composeApp/src/jvmMain/kotlin/com/hdil/datacollection_researcher/builder/validate/ProtocolValidator.kt:31-32 | A later screen that repeats a non-blank screen id is reported at its own index. |
| ProtocolValidator.FirstScreenIdNotReported | composeApp/src/jvmMain/kotlin/com/hdil/datacollection_researcher/builder/validate/ProtocolValidator.kt:29-33 | The first screen to carry an id is never reported as a repeat. |
| ProtocolValidator.RepeatMessage | composeApp/src/jvmMain/kotlin/com/hdil/datacollection_researcher/builder/validate/ProtocolValidator.kt:55 | The repeat message contains `block.id 중복`. |
| ProtocolValidator.EntriesUnder | composeApp/src/jvmMain/kotlin/com/hdil/datacollection_researcher/builder/validate/ProtocolValidator.kt:50-65 | Every block of a tree is located under the tree's prefix. |
| ProtocolValidator.ForestUnder | composeApp/src/jvmMain/kotlin/com/hdil/datacollection_researcher/builder/validate/ProtocolValidator.kt:36-38 | Every block of a list of trees is located under the prefix. |
| ProtocolValidator.ScanUnder | composeApp/src/jvmMain/kotlin/com/hdil/datacollection_researcher/builder/validate/ProtocolValidator.kt:50-61 | Every issue a scan adds is located under a prefix that all its blocks are under. |
| ProtocolValidator.ScanScreensUnder | composeApp/src/jvmMain/kotlin/com/hdil/datacollection_researcher/builder/validate/ProtocolValidator.kt:30-37 | Every issue the screens add is located under `screens[`. |
| ProtocolValidator.OnlySchemaIssueAtSchemaVersion | composeApp/src/jvmMain/kotlin/com/hdil/datacollection_researcher/builder/validate/ProtocolValidator.kt:19-25 | Only the version error is located at `schemaVersion`. |
| ProtocolValidator.DefaultDocumentValid | composeApp/src/jvmMain/kotlin/com/hdil/datacollection_researcher/builder/validate/ProtocolValidator.kt:16-42 | The default document passes validation. |
| WorkflowDashboard.StatusForCases | composeApp/src/jvmMain/kotlin/com/hdil/datacollection_researcher/ui/workflow/WorkflowDashboardMapper.kt:147-155 | A running step shows Running. Otherwise the last log line decides: an error prefix gives Error with that line, then a completion word gives Success, and anything else gives Idle. |
| WorkflowDashboard.NoLogsIdle | composeApp/src/jvmMain/kotlin/com/hdil/datacollection_researcher/ui/workflow/WorkflowDashboardMapper.kt:149-153 | A step that is not running and has no log is idle. |
| WorkflowDashboard.StatusForLastLine | composeApp/src/jvmMain/kotlin/com/hdil/datacollection_researcher/ui/workflow/WorkflowDashboardMapper.kt:149 | Only the last log line counts. |
| WorkflowDashboard.ErrorBeforeSuccess | composeApp/src/jvmMain/kotlin/com/hdil/datacollection_researcher/ui/workflow/WorkflowDashboardMapper.kt:151-152 | A last line with the `Error` prefix is an error even when it also has a completion word. |
| WorkflowDashboard.BlankedAllAt | composeApp/src/jvmMain/kotlin/com/hdil/datacollection_researcher/ui/workflow/WorkflowDashboardMapper.kt:197 | Emptying blank lines keeps the count and handles each line on its own. |
| WorkflowDashboard.ConsoleLinesSpec | composeApp/src/jvmMain/kotlin/com/hdil/datacollection_researcher/ui/workflow/WorkflowDashboardMapper.kt:187-199 | No logs give the placeholder alone. Otherwise the console shows at most the last 300 lines, in order, with blank lines emptied. It is never empty. |
| WorkflowDashboard.ConsoleKeepsLines | composeApp/src/jvmMain/kotlin/com/hdil/datacollection_researcher/ui/workflow/WorkflowDashboardMapper.kt:195-198 | At most 300 lines that are not blank are shown exactly as logged. |
| WorkflowDashboard.QuickOptionLabel | composeApp/src/jvmMain/kotlin/com/hdil/datacollection_researcher/ui/workflow/WorkflowDashboardMapper.kt:181-185 | Each preset's label is one of the quick options. |
| WorkflowDashboard.QuickOptionLabelsDistinct | composeApp/src/jvmMain/kotlin/com/hdil/datacollection_researcher/ui/workflow/WorkflowDashboardMapper.kt:134-185 | Different presets get different labels, and no preset is labelled `3M` or `All`. |
| WorkflowDashboard.SelectedRangeOption | composeApp/src/jvmMain/kotlin/com/hdil/datacollection_researcher/ui/workflow/WorkflowDashboardMapper.kt:135 | The selected option is set exactly when a preset is, and it is that preset's label. |
| WorkflowDashboard.RangeTexts | composeApp/src/jvmMain/kotlin/com/hdil/datacollection_researcher/ui/workflow/WorkflowDashboardMapper.kt:157-179 | Custom texts win when either one is given, a blank one shown as `(none)`. Otherwise each bound of the range is shown as a UTC date, the exclusive end as the day before, and a missing bound as `(none)`. |
| WorkflowDashboard.CustomTextWins | composeApp/src/jvmMain/kotlin/com/hdil/datacollection_researcher/ui/workflow/WorkflowDashboardMapper.kt:162-165 | When a custom text is given, neither the range nor the date formatter matters. |
| WorkflowDashboard.ParticipantReadyIff | composeApp/src/jvmMain/kotlin/com/hdil/datacollection_researcher/ui/workflow/WorkflowDashboardMapper.kt:30 | A participant is ready exactly when the trimmed id is not empty. |
| WorkflowDashboard.ExportHint | composeApp/src/jvmMain/kotlin/com/hdil/datacollection_researcher/ui/workflow/WorkflowDashboardMapper.kt:40-44 | There is no hint exactly when the key is saved and a participant is given. A missing key is mentioned before a missing participant. |
| WorkflowDashboard.Steps | composeApp/src/jvmMain/kotlin/com/hdil/datacollection_researcher/ui/workflow/WorkflowDashboardMapper.kt:52-89 | There are three cards, numbered 1 to 3, for export, analyze and report, in that order. |
| WorkflowDashboard.CountEnabled | composeApp/src/jvmMain/kotlin/com/hdil/datacollection_researcher/ui/workflow/WorkflowDashboardMapper.kt:93 | The number of enabled cards is at most the number of cards. |
| WorkflowDashboard.Map | composeApp/src/jvmMain/kotlin/com/hdil/datacollection_researcher/ui/workflow/WorkflowDashboardMapper.kt:28-145 | The dashboard has three steps and three consoles in workflow order. It shows the participant id and output directory it was given. |
| WorkflowDashboard.ExportEnabledIff | composeApp/src/jvmMain/kotlin/com/hdil/datacollection_researcher/ui/workflow/WorkflowDashboardMapper.kt:39 | Export is enabled exactly when the key is saved, a participant id is given and no export is running. |
| WorkflowDashboard.LaterStepsEnabledIff | composeApp/src/jvmMain/kotlin/com/hdil/datacollection_researcher/ui/workflow/WorkflowDashboardMapper.kt:46-50 | Analyze needs export files, and the report needs Korea-time files. Neither may be running already. |
| WorkflowDashboard.StepStatuses | composeApp/src/jvmMain/kotlin/com/hdil/datacollection_researcher/ui/workflow/WorkflowDashboardMapper.kt:58-82 | Each card shows its own step's run status. |
| WorkflowDashboard.ExportHintOrder | composeApp/src/jvmMain/kotlin/com/hdil/datacollection_researcher/ui/workflow/WorkflowDashboardMapper.kt:40-62 | The export card's hint names the missing key before the missing participant. There is none when both are set. |
| WorkflowDashboard.CountEnabledAppend | composeApp/src/jvmMain/kotlin/com/hdil/datacollection_researcher/ui/workflow/WorkflowDashboardMapper.kt:93 | Counting enabled cards splits over concatenation. |
| WorkflowDashboard.ReadinessCountsEnabled | composeApp/src/jvmMain/kotlin/com/hdil/datacollection_researcher/ui/workflow/WorkflowDashboardMapper.kt:91-96 | With a participant, the readiness line names the trimmed id and the number of enabled steps. |
| WorkflowDashboard.CountEnabledThree | composeApp/src/jvmMain/kotlin/com/hdil/datacollection_researcher/ui/workflow/WorkflowDashboardMapper.kt:93 | For three cards the count is the sum of their enabled flags. |
| WorkflowDashboard.NoLogsPlaceholders | composeApp/src/jvmMain/kotlin/com/hdil/datacollection_researcher/ui/workflow/WorkflowDashboardMapper.kt:98-126 | With no logs, every console shows its own placeholder. |
| WorkflowDashboard.SelectedOptionFollowsPreset | composeApp/src/jvmMain/kotlin/com/hdil/datacollection_researcher/ui/workflow/WorkflowDashboardMapper.kt:134-135 | The seven-day preset selects `1W`. No preset selects nothing. A selected option is always one of the quick options. |
| WorkflowDashboard.ServiceKeyShown | composeApp/src/jvmMain/kotlin/com/hdil/datacollection_researcher/ui/workflow/WorkflowDashboardMapper.kt:29-35 | A saved key shows `Active` and its path. Otherwise the status is `Not set` and the path is the last file picked. |
| StatusScreen.DailyStatus | composeApp/src/jvmMain/kotlin/com/hdil/datacollection_researcher/ui/settings/ParticipantStatusScreen.kt:37-56 | A day is unknown exactly when it has no summary or every category is switched off. Otherwise it is full above 100 records in the categories switched on, partial above 0, and missing otherwise. |
| StatusScreen.CalculateDailyStatus | composeApp/src/jvmMain/kotlin/com/hdil/datacollection_researcher/ui/settings/ParticipantStatusScreen.kt:37-56 | Building the total one switch at a time gives the grade DailyStatus defines. |
| StatusScreen.EnablingNeverLowers | composeApp/src/jvmMain/kotlin/com/hdil/datacollection_researcher/ui/settings/ParticipantStatusScreen.kt:44-55 | With counts that are never negative, switching more categories on never lowers a day's grade. |
| StatusScreen.NegativeCountCanLower | composeApp/src/jvmMain/kotlin/com/hdil/datacollection_researcher/ui/settings/ParticipantStatusScreen.kt:44-55 | With a negative count, switching health on next to a full sensor day can make the day missing. |
| StatusScreen.DateLeTotal | composeApp/src/jvmMain/kotlin/com/hdil/datacollection_researcher/ui/settings/ParticipantStatusScreen.kt:150 | Ordering entries by day is a total preorder. |
| StatusScreen.ByDate | composeApp/src/jvmMain/kotlin/com/hdil/datacollection_researcher/ui/settings/ParticipantStatusScreen.kt:150 | Sorting by day keeps every entry and puts them in day order. |
| StatusScreen.ThreeLaterSameMembers | composeApp/src/jvmMain/kotlin/com/hdil/datacollection_researcher/ui/settings/ParticipantStatusScreen.kt:150-153 | Two lists with the same entries have the same days with three days after them. |
| StatusScreen.ByDateIncreasing | composeApp/src/jvmMain/kotlin/com/hdil/datacollection_researcher/ui/settings/ParticipantStatusScreen.kt:150 | When no day repeats, the sorted days strictly increase. |
| StatusScreen.ByDateMembers | composeApp/src/jvmMain/kotlin/com/hdil/datacollection_researcher/ui/settings/ParticipantStatusScreen.kt:150 | The sorted entries are the same entries as before. |
| StatusScreen.RecentPositions | composeApp/src/jvmMain/kotlin/com/hdil/datacollection_researcher/ui/settings/ParticipantStatusScreen.kt:151-153 | The recent days are the sorted entries in the last three positions. |
| StatusScreen.LaterFurther | composeApp/src/jvmMain/kotlin/com/hdil/datacollection_researcher/ui/settings/ParticipantStatusScreen.kt:150 | In strictly increasing days, a later day sits further along. |
| StatusScreen.NoThreeAfter | composeApp/src/jvmMain/kotlin/com/hdil/datacollection_researcher/ui/settings/ParticipantStatusScreen.kt:151-153 | In strictly increasing days, none of the last three positions has three later days. |
| StatusScreen.RecentHasNoThreeLater | composeApp/src/jvmMain/kotlin/com/hdil/datacollection_researcher/ui/settings/ParticipantStatusScreen.kt:151-153 | No recent day has three days after it. |
| StatusScreen.OlderHasThreeLater | composeApp/src/jvmMain/kotlin/com/hdil/datacollection_researcher/ui/settings/ParticipantStatusScreen.kt:151-153 | Every day that is not recent has three days after it. |
| StatusScreen.RecentIsLatestThree | composeApp/src/jvmMain/kotlin/com/hdil/datacollection_researcher/ui/settings/ParticipantStatusScreen.kt:149-155 | The recent days are exactly the entries with fewer than three days after them. |
| StatusScreen.AtRiskIff | composeApp/src/jvmMain/kotlin/com/hdil/datacollection_researcher/ui/settings/ParticipantStatusScreen.kt:145-155 | A participant is at risk exactly when one of its three latest days is missing under the current switches. |
| StatusScreen.NoRiskWithEverythingOff | composeApp/src/jvmMain/kotlin/com/hdil/datacollection_researcher/ui/settings/ParticipantStatusScreen.kt:149-155 | With every category switched off no day is missing, so nobody is at risk. |
| StatusScreen.AtRiskCount | composeApp/src/jvmMain/kotlin/com/hdil/datacollection_researcher/ui/settings/ParticipantStatusScreen.kt:149-155 | The count is the number of participants at risk. It is zero exactly when nobody is at risk. |
| StatusScreen.CategoryStatus | composeApp/src/jvmMain/kotlin/com/hdil/datacollection_researcher/ui/settings/ParticipantStatusScreen.kt:425-436 | A category grade in the detail panel is never unknown. |
| StatusScreen.CategoryThresholds | composeApp/src/jvmMain/kotlin/com/hdil/datacollection_researcher/ui/settings/ParticipantStatusScreen.kt:425-436 | A category is full above its threshold (sensor 50, health 10, survey 0), missing at or below zero, and partial in between. Survey is never partial. A day without a summary is missing. |
| StatusScreen.CategoryMonotone | composeApp/src/jvmMain/kotlin/com/hdil/datacollection_researcher/ui/settings/ParticipantStatusScreen.kt:425-436 | More records never lower a category's grade. |
| StatusScreen.SummaryOn | composeApp/src/jvmMain/kotlin/com/hdil/datacollection_researcher/ui/settings/ParticipantStatusScreen.kt:426-434 | A found summary is the entry of that day. None means no entry has that day. |
| StatusScreen.SummaryOnEntry | composeApp/src/jvmMain/kotlin/com/hdil/datacollection_researcher/ui/settings/ParticipantStatusScreen.kt:426 | When no day repeats, the lookup finds the one entry of that day. |
| StatusScreen.LastSevenDays | composeApp/src/jvmMain/kotlin/com/hdil/datacollection_researcher/ui/settings/ParticipantStatusScreen.kt:423 | There are seven days, strictly increasing, from six days before today up to today. |
| StatusScreen.FilteredParticipants | composeApp/src/jvmMain/kotlin/com/hdil/datacollection_researcher/ui/settings/ParticipantStatusScreen.kt:136-139 | A blank query keeps everyone. Otherwise only participants whose id contains the query, ignoring case, are kept. The result is never longer than the input. |
| StatusScreen.PrefixMatchKept | composeApp/src/jvmMain/kotlin/com/hdil/datacollection_researcher/ui/settings/ParticipantStatusScreen.kt:138 | A participant whose id starts with the query, ignoring case, is kept. |
| JsonProps.RawContent | composeApp/src/jvmMain/kotlin/com/hdil/datacollection_researcher/dcc/JsonProps.kt:9-18 | There is raw text exactly when the key holds a primitive, and the text is that primitive's content. |
| JsonProps.GetString | composeApp/src/jvmMain/kotlin/com/hdil/datacollection_researcher/dcc/JsonProps.kt:8-10 | The primitive's text, or the default for an absent key or a composite value. |
| JsonProps.TextToBoolean | composeApp/src/jvmMain/kotlin/com/hdil/datacollection_researcher/dcc/JsonProps.kt:14 | The strict parse and the lenient fallback together read true exactly for `true` in any letter case. |
| JsonProps.GetBoolean | composeApp/src/jvmMain/kotlin/com/hdil/datacollection_researcher/dcc/JsonProps.kt:12-15 | The default is used only for an absent key or a composite value. Any primitive is true exactly when its text is `true` ignoring case. |
| JsonProps.GetInt | composeApp/src/jvmMain/kotlin/com/hdil/datacollection_researcher/dcc/JsonProps.kt:17-20 | A primitive that parses as a 32-bit decimal gives that number. Anything else gives the default. |
| JsonProps.AbsentKeyDefaults | composeApp/src/jvmMain/kotlin/com/hdil/datacollection_researcher/dcc/JsonProps.kt:8-20 | An absent key gives the default for all three reads. |
| JsonProps.NullIsText | composeApp/src/jvmMain/kotlin/com/hdil/datacollection_researcher/dcc/JsonProps.kt:8-20 | JSON null reads as the text `null`, as false and as the default number. It is not treated as an absent key. |
| JsonProps.StringRoundTrip | composeApp/src/jvmMain/kotlin/com/hdil/datacollection_researcher/dcc/JsonProps.kt:8-10 | A text written under a key is read back as it was. |
| JsonProps.BooleanRoundTrip | composeApp/src/jvmMain/kotlin/com/hdil/datacollection_researcher/dcc/JsonProps.kt:12-15 | A boolean written as `true` or `false` is read back, whatever the default. |
| JsonProps.IntRoundTrip | composeApp/src/jvmMain/kotlin/com/hdil/datacollection_researcher/dcc/JsonProps.kt:17-20 | A 32-bit Int written in decimal is read back, whatever the default. |
| JsonProps.OtherKeysIgnored | composeApp/src/jvmMain/kotlin/com/hdil/datacollection_researcher/dcc/JsonProps.kt:8-20 | Writing another key changes none of the reads of this key. |
| JobModels.NewExportRequest | composeApp/src/commonMain/kotlin/com/hdil/datacollection_researcher/export/ExportModels.kt:6-13 | An export request made without a limit or order field gets the configured defaults, and keeps the given fields. |
| JobModels.NewDeleteRequest | composeApp/src/commonMain/kotlin/com/hdil/datacollection_researcher/delete/FirestoreDeleteModels.kt:3-9 | A delete request made without a batch size gets 400. That is inside 1..500, so the deleter uses it unchanged. |

## Left out

- Compose UI is not modelled: screens, widgets, colors, layout and the builder canvas's drop-index and auto-scroll logic. These depend on mouse coordinates in floating point and on timed loops.
- FirestoreDelete.DeleteCollection, FirestoreDelete.DeleteTree and FirestoreDelete.DeleteParticipant: every document in the store exists when the run starts. Firestore also keeps "missing" documents, which have subcollections but no fields. The page query `orderBy("__name__").limit(batchSize).get()` (DesktopFirestoreDeleter.kt:94) never returns them, so the subtrees below them survive a failure-free run. The deleter makes such documents itself: when a subcollection's deletion fails, the parent page is still committed (:104-112), and a later run cannot reach what was left below it. `rootDoc.delete()` (:72-73) also succeeds, and counts 1, when the participant document does not exist. The failure-free clauses (the count is the subtree's size and the whole subtree is gone) hold only for a store whose documents all exist.
- The Firestore SDK is not modelled: client setup, queries, futures and batch commits. The exporter reads a collection as a parameter sequence of documents, and the deleter works on an in-memory store. A call that throws is marked in the `fails` / `fetchFails` parameters.
- The spreadsheet library is not modelled: workbook, cell and style writing, and column auto-sizing. The report is described by the values its sheets are filled with. The Summary sheet's numbers are written as doubles. The model keeps them as integers, which is exact for counts below 2^53.
- Floating point is not modelled: Double and GeoPoint values in the exporter's JSON encoder, the status screen's average coverage, and its trend chart. A structured Firestore value is one constructor whose text is given.
- FirestoreDocs.Value has no constructor for a top-level Double field, which Firestore returns for every non-integer number (most sensor readings).
- FirestoreExport.ExportEpoch: a Double field's `value.toLong()` (DesktopFirestoreExporter.kt:255), which truncates toward zero, is not modelled; only a whole (Long) number gives itself.
- FirestoreExport.Serialize: a Double field's `toString()` text (DesktopFirestoreExporter.kt:299), such as `0.5` or `1.0E10`, is not modelled; only a whole (Long) number's decimal text is.
- java.time is not modelled: ISO-8601 and `LocalDateTime` parsing, date and time formatting, and the Asia/Seoul zone. They are parameters (`isoParse`, `kstParse`, `parseDate`, `localMinute`, `render…`, `formatUtcDate`). Only the integer arithmetic around them is modelled.
- The clock and randomness are parameters: `System.currentTimeMillis` and `LocalDate.now` become `nowUtcMillis` and `today`, and `UUID.randomUUID` in `generateId` becomes the `uuid` text.
- File I/O is not modelled: reading and writing files, directory walking, `mkdirs`, the temporary-file-then-atomic-move save, the AWT file dialog, `Desktop.open`, `java.util.prefs.Preferences` and the home-directory lookup. Files are given by their lines, and the disk is a store of path entries.
- ProtocolJsonCodec (JSON encoding of the protocol) and DesktopAppConfigRepository (JSON persistence of the configuration) are not part of this model. Their round trip is a property of the serialization library.
- The coroutine and flow view models (export, analyze, Excel, delete, credentials and participant status) are not modelled. They launch jobs and turn log events into text lines. The launch and collect wrappers of the settings form's load and save are left out too. `Load` and `Save` take the loaded configuration or the save outcome as parameters.
- The three run states the dashboard reads (`ExportUiState`, `AnalyzeUiState`, `ExcelUiState`) have the same two fields the mapper uses. They are modelled by one datatype, `StepRunState`.
- `buildStepConsoleLines` takes a `stepPrefix` argument and never uses it. The model drops that argument.
- The builder's default starting document is not modelled: the sample "Main" screen of `BuilderViewModel`'s default argument. The constructor takes the initial document as a parameter.
- Case-insensitive comparison folds ASCII letters only. Kotlin's `equals`/`contains(ignoreCase = true)`, Java's `equalsIgnoreCase` and Kotlin's `RegexOption.IGNORE_CASE` (which also turns on Unicode case folding) fold non-ASCII letters too, so `ſ` matches `s` and the Kelvin sign matches `k`; that folding is not modelled. Strings are sequences of UTF-16 code units taken as characters; there is no surrogate handling.
- ParticipantStatus.IdMatchAt, ParticipantStatus.IdMatchAtIsRegex, ParticipantStatus.IdMatchAtSound, ParticipantStatus.IdMatchAtComplete, ParticipantStatus.IdFromFileName, ParticipantStatus.IdFromFileNameIsLeftmost, ParticipantStatus.IdFromFileNameNone and ParticipantStatus.IdFromExporterName: the `studies__`/`__participants__` words are matched with ASCII case folding only, where the regex also accepts their Unicode case variants.
- StatusScreen.FilteredParticipants, StatusScreen.PrefixMatchKept, CsvAnalyzer.SelectInputs, CsvAnalyzer.FirstPresent, ParticipantStatus.Classify, ParticipantStatus.IsStatusInput and ParticipantStatus.TimestampIndex: their ignore-case tests fold ASCII letters only. The source's `contains`/`equals(ignoreCase = true)` also folds non-ASCII letters such as `ſ`, `ı` and the Kelvin sign, so a name or query using those can pass in the source and fail in the model.
- CsvAnalyzer.TimestampColumns: the timestamp-column names are matched with ASCII case folding only, where the regex also accepts their Unicode case variants.
- ExcelReport.FirstRefused and ExcelReport.Generate: sheet names are compared ignoring ASCII case only, where the library's `equalsIgnoreCase` folds every letter. The library's message for a refused sheet is the `refusal` parameter, and other failures inside the `try` (writing the file, styles) are not modelled.
- Text.IsDigit, Text.DigitValue, Text.ParseInteger, Text.ParseInt and Text.ParseLong: only the ASCII digits `0`-`9` are digits, where `toIntOrNull`/`toLongOrNull` accept any Unicode decimal digit (Arabic-Indic, full-width, …). This carries over to JsonProps.GetInt, CsvAnalyzer.EpochOfText, FirestoreExport.ExportEpoch and ConfigViewModel.NumberOr, which refuse such text.
- ParticipantData.DeleteParticipantDataUseCase, ParticipantData.FileStore.DeleteParticipantData and OutputPaths.ParticipantDir follow the code as written, so an id of `.` or `..` reaches the output folder or its parent (see Findings). The intended guard is modelled beside them (`ParticipantData.SafeUseCaseGuard`, `ParticipantData.SafeDeleteParticipantDataUseCase`). The exporter and the report generator still build their folders through the unguarded `ParticipantDir`. Paths are otherwise lists of names: links are not followed, and the output folder itself is taken to contain no `.` or `..` segment.
- ConfigViewModel.CustomRange, ConfigViewModel.CustomRangeAdmits, ConfigViewModel.AppConfigViewModel.RecalcCustomDateRange, ConfigViewModel.AppConfigViewModel.OnCustomStartChanged and ConfigViewModel.AppConfigViewModel.OnCustomEndChanged: the settings form is built on the corrected date-range check `DateRanges.CustomDatesToUtcMillis` (see Findings), so a start one day after the end is refused. The code as written stores the empty range from midnight of the start to midnight of the start with no error; `DateRanges.CustomDatesAsWritten` and its lemmas show that behaviour.
- CsvReading.ReadEncodedFile and FirestoreExport.ExportReadBack: a file is modelled as its sequence of lines, and reading back is promised only when no header or field holds CR or LF. The writers put such a field inside its quotes unchanged (`CsvUtils.MultiLineFieldSpansLines`), and the readers split the file with `readLines` before parsing, so a multi-line field does not survive being read back.
- Integer overflow is not modelled: Kotlin `Int`/`Long` arithmetic on counts and millisecond sums is unbounded here. `toIntOrNull` and `toLongOrNull` do check their 32- and 64-bit ranges.
- `DailyDataSummary`, `CoverageStatus` and the `dailySummaries` map of `ParticipantDataStatus` are not part of this model. The status screen uses them but does not define them, so they are modelled from those uses: a day number with its three record counts, and no day repeated.
- Progress events that only carry ids or counts into log lines are modelled only as the datatypes in `JobModels`.
- The status scanner's `DesktopCsvAnalyzerLineParser` duplicates the analyzer's CSV line parser. It is modelled by the same `CsvReading.ParseLine`, not by a second copy.

## Findings

| source | as written | input that shows it | evidently intended | confidence | as-written member | corrected member |
|---|---|---|---|---|---|---|
| composeApp/src/jvmMain/kotlin/com/hdil/datacollection_researcher/config/DateRangeCalculatorJvm.kt:39-41 | The start is rejected only when its midnight is after the exclusive end, which is the midnight after the end day. | start day = end day + 1: the check passes and gives an empty range whose start equals its end. | A start day later than the end day is rejected. | not executed | DateRanges.CustomDatesAsWritten (shown by DateRanges.AsWrittenAcceptsStartAfterEnd) | DateRanges.CustomDatesToUtcMillis |
| composeApp/src/jvmMain/kotlin/com/hdil/datacollection_researcher/credentials/DesktopCredentialsRepository.kt:78-96 | `toJson` escapes backslashes and quotes, but the reader copies the text between the quotes without unescaping. | the Windows-style path `a\b` is saved as `a\\b` and read back with its backslash still doubled. | A saved path is read back unchanged. | not executed | Credentials.ParseCredentialPathOrNull (shown by Credentials.AsWrittenMisreadsWindowsPath and Credentials.AsWrittenLosesBackslashPaths) | Credentials.ParseCredentialPath (proved by Credentials.ParseToJsonRoundTrip) |
| composeApp/src/jvmMain/kotlin/com/hdil/datacollection_researcher/status/DeleteParticipantDataUseCase.kt:9-13 | The guard refuses only a blank id and the unknown group, and the repository resolves `File(outputDir, sanitizeSegment(id))`, which keeps dots. | the id `..`, which the status scanner reads from a file named `studies__s__participants__..__x.csv`: the target is the output folder's parent, which is counted and recursively deleted with the output folder inside it; the id `.` empties the whole output folder. | Only a folder strictly inside the output folder is deleted. | not executed | ParticipantData.DeleteParticipantDataUseCase (shown by ParticipantData.DotIdsDeleteOutputFolder) | ParticipantData.SafeUseCaseGuard (proved by ParticipantData.SafeGuardKeepsOutside) |
