/** The researcher workbook (`DesktopResearcherExcelGenerator`): which
    Korea-time CSV files go in, the Summary sheet's rows, and the shape of
    each raw sheet. Cells, styles and the workbook file itself are the
    spreadsheet library's business and are not modelled; the workbook is
    described by the values it is filled with. */
module ExcelReport {
  import opened Wrappers
  import opened Text
  import opened Collections
  import opened CsvReading
  import opened CsvAnalyzer
  import opened OutputPaths

  const KOREA_SUFFIX: string := "_korea_time.csv"
  const EXPORT_MARK: string := "_export_"
  const TOKEN_SEPARATOR: string := "__"
  const MAX_SHEET_NAME: nat := 31
  const SHEET_FALLBACK: string := "Sheet"
  const MAX_RAW_ROWS: nat := 50000
  const AUTO_SIZE_LIMIT: nat := 25
  const XLSX_FILE_PREFIX: string := "KoreaTime_ResearcherView"
  const NO_INPUTS: string := "*_korea_time.csv 파일이 없어요. Analyze를 먼저 실행해 주세요."
  const OUTPUT_MISSING: string := "output 폴더를 찾을 수 없어요: "
  const GENERATION_FAILED: string := "XLSX 생성에 실패했어요: "
  const SUMMARY_SHEET: string := "Summary"

  // --------------------------------------------------------- input files

  /** A file of the participant's folder that goes into the workbook: a
      `.csv` (any case) whose name ends with `_korea_time.csv`. */
  predicate IsReportInput(e: DirEntry) {
    e.isFile && Lower(Extension(e.name)) == "csv" && EndsWith(e.name, KOREA_SUFFIX)
  }

  /** The extension test adds nothing: a name ending with
      `_korea_time.csv` has the extension `csv`. */
  lemma ReportInputIff(e: DirEntry)
    ensures IsReportInput(e) <==> e.isFile && EndsWith(e.name, KOREA_SUFFIX)
  {
    if EndsWith(e.name, KOREA_SUFFIX) {
      SuffixOfSuffix(e.name, KOREA_SUFFIX, 4);
      assert KOREA_SUFFIX[|KOREA_SUFFIX| - 4..] == ".csv";
      LastDotOfCsv(e.name);
      assert Lower("csv") == "csv";
    }
  }

  /** The last `k` characters of a text ending with `p` are those of `p`. */
  lemma SuffixOfSuffix(s: string, p: string, k: nat)
    requires EndsWith(s, p) && k <= |p|
    ensures s[|s| - k..] == p[|p| - k..]
  {
    assert s[|s| - k..] == s[|s| - |p|..][|p| - k..];
  }

  /** The last dot of a name ending in `.csv` is the one before `csv`. */
  lemma LastDotOfCsv(name: string)
    requires |name| >= 4 && name[|name| - 4..] == ".csv"
    ensures Extension(name) == "csv"
  {
    var n := |name|;
    assert name[n - 4] == name[n - 4..][0] == '.';
    assert name[n - 3..] == name[n - 4..][1..] == "csv";
    forall k | n - 4 < k < n ensures name[k] != '.' {
      assert name[k] == name[n - 4..][k - (n - 4)];
    }
    assert LastIndexOfChar(name, '.') == Some(n - 4);
  }

  /** The entries passing `keep`, sorted by name: each as often as it is
      listed, so two files of the same name both stay. */
  function SelectSorted(entries: seq<DirEntry>, keep: DirEntry -> bool): (r: seq<DirEntry>)
    ensures SortedBy(r, NameLe)
    ensures forall e :: e in r <==> e in entries && keep(e)
    ensures forall e :: multiset(r)[e] == if keep(e) then multiset(entries)[e] else 0
  {
    NameLeTotal();
    var chosen := Filter(entries, keep);
    var sorted := SortBy(chosen, NameLe);
    assert forall e :: multiset(sorted)[e] == if keep(e) then multiset(entries)[e] else 0 by {
      forall e ensures multiset(sorted)[e] == if keep(e) then multiset(entries)[e] else 0 {
        FilterCount(entries, keep, e);
      }
    }
    assert forall e :: e in sorted <==> e in chosen by {
      forall e ensures e in sorted <==> e in chosen {
        SortByMembers(chosen, NameLe, e);
      }
    }
    sorted
  }

  /** The inputs, sorted by name; none is an error and no workbook. */
  function ReportInputs(entries: seq<DirEntry>): (r: Result<seq<DirEntry>, string>)
    ensures r.Err? <==> forall e :: e in entries ==> !IsReportInput(e)
    ensures r.Err? ==> r.error == NO_INPUTS
    ensures r.Ok? ==> r.value != [] && SortedBy(r.value, NameLe)
    ensures r.Ok? ==> forall e :: e in r.value <==> e in entries && IsReportInput(e)
    ensures r.Ok? ==> forall e :: multiset(r.value)[e] == if IsReportInput(e) then multiset(entries)[e] else 0
  {
    var sorted := SelectSorted(entries, IsReportInput);
    if sorted == [] then Err(NO_INPUTS) else assert sorted[0] in sorted; Ok(sorted)
  }

  // --------------------------------------------------------- sheet names

  /** The characters Excel refuses in a sheet name: `: \ / ? * [ ]`. */
  predicate IsSheetUnsafe(c: char) {
    c == ':' || c == '\\' || c == '/' || c == '?' || c == '*' || c == '[' || c == ']'
  }

  /** Trimming keeps a subsequence of the characters, so a property all
      characters have survives it. */
  lemma TrimKeeps(s: string, bad: char -> bool)
    requires forall i :: 0 <= i < |s| ==> !bad(s[i])
    ensures forall i :: 0 <= i < |Trim(s)| ==> !bad(Trim(s)[i])
  {
    TrimBySlice(s, IsWhitespace);
  }

  /** The sheet-name text before truncation: unsafe characters become
      spaces and the ends are trimmed. */
  function CleanSheetText(raw: string): (r: string)
    ensures forall i :: 0 <= i < |r| ==> !IsSheetUnsafe(r[i])
  {
    var replaced := MapBad(raw, IsSheetUnsafe, ' ');
    TrimKeeps(replaced, IsSheetUnsafe);
    Trim(replaced)
  }

  /** Kotlin `take(n)`. */
  function Take<T>(s: seq<T>, n: nat): (r: seq<T>)
    ensures |r| <= n && r <= s
    ensures |s| <= n ==> r == s
  {
    if |s| <= n then s else s[..n]
  }

  /** `Sheet` is a safe, non-blank name. */
  lemma FallbackSafe()
    ensures |SHEET_FALLBACK| <= MAX_SHEET_NAME && !IsBlank(SHEET_FALLBACK)
    ensures forall i :: 0 <= i < |SHEET_FALLBACK| ==> !IsSheetUnsafe(SHEET_FALLBACK[i])
  {
    assert SHEET_FALLBACK[0] == 'S';
  }

  /** `safeSheetName`: unsafe characters become spaces, the ends are
      trimmed, at most 31 characters are kept, and a blank result becomes
      `Sheet`. */
  function SafeSheetName(raw: string): (r: string)
    ensures |r| <= MAX_SHEET_NAME
    ensures forall i :: 0 <= i < |r| ==> !IsSheetUnsafe(r[i])
    ensures !IsBlank(r)
  {
    var taken := Take(CleanSheetText(raw), MAX_SHEET_NAME);
    FallbackSafe();
    if IsBlank(taken) then SHEET_FALLBACK else taken
  }

  /** A short name with nothing to clean is kept as it is. */
  lemma SafeSheetNameKeeps(raw: string)
    requires raw != [] && !IsWhitespace(raw[0]) && !IsWhitespace(raw[|raw| - 1])
    requires |raw| <= MAX_SHEET_NAME && forall i :: 0 <= i < |raw| ==> !IsSheetUnsafe(raw[i])
    ensures SafeSheetName(raw) == raw
  {
    var replaced := MapBad(raw, IsSheetUnsafe, ' ');
    assert replaced == raw;
    TrimUnchanged(raw);
    assert raw[..|raw|] == raw;
  }

  /** Text that is all whitespace and unsafe characters names the sheet
      `Sheet`. */
  lemma SafeSheetNameFallback(raw: string)
    requires forall i :: 0 <= i < |raw| ==> IsWhitespace(raw[i]) || IsSheetUnsafe(raw[i])
    ensures SafeSheetName(raw) == SHEET_FALLBACK
  {
    var replaced := MapBad(raw, IsSheetUnsafe, ' ');
    assert IsBlank(replaced);
    BlankIffTrimEmpty(replaced);
  }

  // ------------------------------------------------------ collection key

  /** Kotlin `substringBefore(d)`: the text before the first `d`, or all
      of it. */
  function SubstringBefore(s: string, d: string): (r: string)
    ensures StartsWith(s, r)
    ensures Contains(s, d) ==> MatchAt(s, d, |r|) && forall j :: 0 <= j < |r| ==> !MatchAt(s, d, j)
    ensures !Contains(s, d) ==> r == s
  {
    match IndexOf(s, d)
    case Some(i) => assert MatchAt(s, d, i); s[..i]
    case None => s
  }

  predicate NotBlank(t: string) {
    !IsBlank(t)
  }

  /** The `__`-separated tokens of `base` that are not blank, in order. */
  function NonBlankTokens(base: string): (r: seq<string>)
    ensures forall t :: t in r ==> t in Split(base, TOKEN_SEPARATOR) && !IsBlank(t)
  {
    Filter(Split(base, TOKEN_SEPARATOR), NotBlank)
  }

  /** Of two tokens the last that is not blank is the second, when it is
      not blank. */
  lemma LastOfPair(a: string, b: string)
    requires !IsBlank(b)
    ensures var t := Filter([a, b], NotBlank); t != [] && t[|t| - 1] == b
  {
    assert [a, b][1..] == [b];
    assert [b][1..] == [];
  }

  /** `extractCollectionKey`: in the part of the file name before the
      first `_export_`, the last `__`-separated token that is not blank,
      or that part itself when every token is blank. */
  function ExtractCollectionKey(fileName: string): (r: string)
    ensures var base := SubstringBefore(fileName, EXPORT_MARK);
      && (NonBlankTokens(base) == [] ==> r == base)
      && (NonBlankTokens(base) != [] ==>
            r == NonBlankTokens(base)[|NonBlankTokens(base)| - 1] && !IsBlank(r) && r in Split(base, TOKEN_SEPARATOR))
  {
    var base := SubstringBefore(fileName, EXPORT_MARK);
    var tokens := NonBlankTokens(base);
    if tokens == [] then base else tokens[|tokens| - 1]
  }

  /** A text without `_` holds no `__`. */
  lemma SplitWithoutUnderscore(s: string)
    requires '_' !in s
    ensures Split(s, TOKEN_SEPARATOR) == [s]
  {
    forall k: nat ensures !MatchAt(s, TOKEN_SEPARATOR, k) {
      MatchChar(s, TOKEN_SEPARATOR, k, 0);
    }
  }

  /** `a__b` splits into `a` and `b` when neither holds `_`. */
  lemma SplitPair(a: string, b: string)
    requires '_' !in a && '_' !in b
    ensures Split(a + TOKEN_SEPARATOR + b, TOKEN_SEPARATOR) == [a, b]
  {
    var p := a + TOKEN_SEPARATOR + b;
    assert p[|a|..|a| + 2] == TOKEN_SEPARATOR;
    forall j | 0 <= j < |a| ensures !MatchAt(p, TOKEN_SEPARATOR, j) {
      MatchChar(p, TOKEN_SEPARATOR, j, 0);
    }
    IndexOfExact(p, TOKEN_SEPARATOR, |a|);
    FoundSplit(p, TOKEN_SEPARATOR, |a|);
    assert p[..|a|] == a && p[|a| + 2..] == b;
    SplitWithoutUnderscore(b);
  }

  /** Right after the `__` of `a__b_export_…` the text does not start
      `export_`, unless `b` is `export`. */
  lemma NoMarkAfterSeparator(a: string, b: string, rest: string)
    requires '_' !in a && '_' !in b && b != "export"
    ensures !MatchAt(a + TOKEN_SEPARATOR + b + EXPORT_MARK + rest, EXPORT_MARK, |a| + 1)
  {
    var name := a + TOKEN_SEPARATOR + b + EXPORT_MARK + rest;
    var k := |a| + 1;
    if |b| < 6 {
      MatchChar(name, EXPORT_MARK, k, |b| + 1);
      assert name[k + |b| + 1] == '_';
    } else if |b| > 6 {
      MatchChar(name, EXPORT_MARK, k, 7);
      assert name[k + 7] == b[6];
    } else {
      var i :| 0 <= i < 6 && b[i] != "export"[i];
      MatchChar(name, EXPORT_MARK, k, i + 1);
      assert name[k + 1 + i] == b[i];
    }
  }

  /** In `a__b_export_…` the first `_export_` is the one after `b`. */
  lemma MarkAfterPair(a: string, b: string, rest: string)
    requires '_' !in a && '_' !in b && b != "export"
    ensures SubstringBefore(a + TOKEN_SEPARATOR + b + EXPORT_MARK + rest, EXPORT_MARK) == a + TOKEN_SEPARATOR + b
  {
    var name := a + TOKEN_SEPARATOR + b + EXPORT_MARK + rest;
    var p := a + TOKEN_SEPARATOR + b;
    assert name == p + EXPORT_MARK + rest;
    assert name[|p|..|p| + |EXPORT_MARK|] == EXPORT_MARK;
    forall j | 0 <= j < |p| ensures !MatchAt(name, EXPORT_MARK, j) {
      if j == |a| + 1 {
        NoMarkAfterSeparator(a, b, rest);
      } else if j == |a| {
        MatchChar(name, EXPORT_MARK, j, 1);
      } else {
        MatchChar(name, EXPORT_MARK, j, 0);
      }
    }
    IndexOfExact(name, EXPORT_MARK, |p|);
  }

  /** The file name the exporter and the analyzer give collection `b`
      under `a` (`a__b_export_korea_time.csv`, or with a ` (n)` before
      `.csv`) gives back `b`. */
  lemma ExporterNameKey(a: string, b: string, rest: string)
    requires '_' !in a && '_' !in b && !IsBlank(b) && b != "export"
    ensures ExtractCollectionKey(a + TOKEN_SEPARATOR + b + EXPORT_MARK + rest) == b
  {
    MarkAfterPair(a, b, rest);
    SplitPair(a, b);
    LastOfPair(a, b);
  }

  // ------------------------------------------------------------- sheets

  /** `LoadedCsv`: what the workbook keeps of one input. */
  datatype LoadedCsv = LoadedCsv(collectionKey: string, records: nat, columns: nat,
                                 header: seq<string>, rows: seq<seq<string>>)

  /** `loadCsv`: the file read as CSV, its key from its name, and its
      data-row and header sizes. */
  function LoadCsv(fileName: string, lines: seq<string>): (r: LoadedCsv)
    ensures r.collectionKey == ExtractCollectionKey(fileName)
    ensures r.records == |r.rows| && r.columns == |r.header|
    ensures lines == [] ==> r.records == 0 && r.columns == 0
    ensures lines != [] ==> r.records == |NonBlankLines(lines[1..])| && r.columns >= 1
  {
    var csv := Read(lines);
    LoadedCsv(ExtractCollectionKey(fileName), |csv.rows|, |csv.header|, csv.header, csv.rows)
  }

  /** A value written into a cell: text, or a number. */
  datatype Cell = Str(text: string) | Num(number: nat)

  /** One raw sheet: a safe name, the header row, the data rows, and how
      many leading columns are auto-sized. */
  datatype RawSheet = RawSheet(name: string, header: seq<string>, rows: seq<seq<string>>, autoSized: nat)

  function Min(a: nat, b: nat): nat {
    if a <= b then a else b
  }

  /** The raw sheet of one input: named after `<key> (raw)`, at most
      50 000 data rows from the top, auto-sizing at most 25 columns. */
  function RawSheetOf(loaded: LoadedCsv): (r: RawSheet)
    ensures r.name == SafeSheetName(loaded.collectionKey + " (raw)")
    ensures r.header == loaded.header
    ensures |r.rows| <= MAX_RAW_ROWS && r.rows <= loaded.rows
    ensures |loaded.rows| <= MAX_RAW_ROWS ==> r.rows == loaded.rows
    ensures r.autoSized <= AUTO_SIZE_LIMIT && r.autoSized <= |r.header|
    ensures r.autoSized == |r.header| || r.autoSized == AUTO_SIZE_LIMIT
  {
    var kept := Min(|loaded.rows|, MAX_RAW_ROWS);
    RawSheet(SafeSheetName(loaded.collectionKey + " (raw)"), loaded.header, loaded.rows[..kept],
             Min(|loaded.header|, AUTO_SIZE_LIMIT))
  }

  /** The Summary row of one input. */
  function SummaryRow(fileName: string, loaded: LoadedCsv): seq<Cell> {
    [Str(loaded.collectionKey), Str(fileName), Num(loaded.records), Num(loaded.columns)]
  }

  const SUMMARY_HEADER: seq<Cell> := [Str("collectionKey"), Str("fileName"), Str("records"), Str("columns")]

  /** The Summary sheet: participant, generation time and file count, an
      empty row, the table header, then one row per input in input order. */
  function SummarySheet(participantId: Option<string>, generatedAtUtc: string,
                        names: seq<string>, loaded: seq<LoadedCsv>): (r: seq<seq<Cell>>)
    requires |names| == |loaded|
    ensures |r| == 5 + |names|
    ensures r[0] == [Str("participantId"), Str(participantId.GetOr(""))]
    ensures r[2] == [Str("fileCount"), Str(NatToString(|names|))]
    ensures r[3] == [] && r[4] == SUMMARY_HEADER
    ensures forall i :: 0 <= i < |names| ==> r[5 + i] == SummaryRow(names[i], loaded[i])
  {
    [[Str("participantId"), Str(participantId.GetOr(""))],
     [Str("generatedAtUtc"), Str(generatedAtUtc)],
     [Str("fileCount"), Str(NatToString(|names|))],
     [],
     SUMMARY_HEADER]
    + seq(|names|, i requires 0 <= i < |names| => SummaryRow(names[i], loaded[i]))
  }

  /** The workbook: the Summary sheet and one raw sheet per input. */
  datatype Workbook = Workbook(summary: seq<seq<Cell>>, raw: seq<RawSheet>)

  /** The file names of the inputs, in order. */
  function Names(inputs: seq<DirEntry>): (r: seq<string>)
    ensures |r| == |inputs| && forall i :: 0 <= i < |inputs| ==> r[i] == inputs[i].name
  {
    seq(|inputs|, i requires 0 <= i < |inputs| => inputs[i].name)
  }

  /** The contents of the inputs, loaded. `read` gives a file's lines
      (`readLines` is file I/O). */
  function LoadAll(inputs: seq<DirEntry>, read: string -> seq<string>): (r: seq<LoadedCsv>)
    ensures |r| == |inputs| && forall i :: 0 <= i < |inputs| ==> r[i] == LoadCsv(inputs[i].name, read(inputs[i].name))
  {
    seq(|inputs|, i requires 0 <= i < |inputs| => LoadCsv(inputs[i].name, read(inputs[i].name)))
  }

  /** What `generate` fills the workbook with for the chosen inputs. */
  function BuildWorkbook(participantId: Option<string>, generatedAtUtc: string,
                         inputs: seq<DirEntry>, read: string -> seq<string>): (r: Workbook)
    ensures |r.summary| == 5 + |inputs| && |r.raw| == |inputs|
    ensures forall i :: 0 <= i < |inputs| ==>
      var loaded := LoadCsv(inputs[i].name, read(inputs[i].name));
      r.summary[5 + i] == SummaryRow(inputs[i].name, loaded) && r.raw[i] == RawSheetOf(loaded)
  {
    var loaded := LoadAll(inputs, read);
    Workbook(SummarySheet(participantId, generatedAtUtc, Names(inputs), loaded),
             seq(|inputs|, i requires 0 <= i < |inputs| => RawSheetOf(loaded[i])))
  }

  // ----------------------------------------------------- sheet creation

  /** The sheets in creation order: Summary first, then the raw sheets. */
  function SheetNames(w: Workbook): (r: seq<string>)
    ensures |r| == |w.raw| + 1 && r[0] == SUMMARY_SHEET
    ensures forall i :: 0 <= i < |w.raw| ==> r[i + 1] == w.raw[i].name
  {
    [SUMMARY_SHEET] + seq(|w.raw|, i requires 0 <= i < |w.raw| => w.raw[i].name)
  }

  /** The spreadsheet library refuses to create a sheet whose name equals
      an earlier sheet's name ignoring case, or begins or ends with an
      apostrophe. */
  predicate Refused(names: seq<string>, k: nat)
    requires k < |names|
  {
    || (exists j :: 0 <= j < k && EqualsIgnoreCase(names[j], names[k]))
    || (names[k] != [] && (names[k][0] == '\'' || names[k][|names[k]| - 1] == '\''))
  }

  /** The first sheet from `k` on whose creation throws, if any. */
  function FirstRefused(names: seq<string>, k: nat): (r: Option<nat>)
    requires k <= |names|
    decreases |names| - k
    ensures r.None? <==> forall i :: k <= i < |names| ==> !Refused(names, i)
    ensures r.Some? ==> k <= r.value < |names| && Refused(names, r.value)
    ensures r.Some? ==> forall i :: k <= i < r.value ==> !Refused(names, i)
  {
    if k == |names| then None
    else if Refused(names, k) then Some(k)
    else FirstRefused(names, k + 1)
  }

  /** Two inputs sharing a collection key (the same collection exported
      twice, the second time as ` (2)`) give two raw sheets of the same
      name, so creating the second one throws and no workbook is made. */
  lemma SharedKeyRefused(w: Workbook, i: nat, j: nat)
    requires i < j < |w.raw| && w.raw[i].name == w.raw[j].name
    ensures FirstRefused(SheetNames(w), 0).Some?
  {
    var names := SheetNames(w);
    assert EqualsIgnoreCase(names[i + 1], names[j + 1]);
    assert Refused(names, j + 1);
  }

  /** Every summary row and raw sheet of a built workbook agree: the row's
      record count is the sheet's row count unless the 50 000 cap cut it,
      and its column count is the sheet's header size. */
  lemma SummaryMatchesSheets(participantId: Option<string>, generatedAtUtc: string,
                             inputs: seq<DirEntry>, read: string -> seq<string>, i: nat)
    requires i < |inputs|
    ensures var w := BuildWorkbook(participantId, generatedAtUtc, inputs, read);
      && w.summary[5 + i][3] == Num(|w.raw[i].header|)
      && (w.summary[5 + i][2] == Num(|w.raw[i].rows|) || |w.raw[i].rows| == MAX_RAW_ROWS)
  {
  }

  /** `generate`: a missing output folder and a folder without inputs are
      errors; otherwise the workbook goes to a fresh `.xlsx` name in the
      participant's folder, unless the library refuses one of its sheet
      names, which is caught and reported with the library's message.
      `entries` are the files found below that folder, `existing` the
      names it already holds, `read` the files' lines, and `refusal` the
      library's message for a refused sheet name. */
  method Generate(outputDir: seq<string>, outputDirExists: bool, participantId: Option<string>,
                  entries: seq<DirEntry>, read: string -> seq<string>, generatedAtUtc: string,
                  existing: set<string>, refusal: string -> string)
    returns (r: Result<(seq<string>, Workbook), string>)
    ensures !outputDirExists ==> r == Err(OUTPUT_MISSING + Join(outputDir, "/"))
    ensures outputDirExists && ReportInputs(entries).Err? ==> r == Err(NO_INPUTS)
    ensures outputDirExists && ReportInputs(entries).Ok? ==>
      var w := BuildWorkbook(participantId, generatedAtUtc, ReportInputs(entries).value, read);
      var refused := FirstRefused(SheetNames(w), 0);
      && (refused.Some? ==> r == Err(GENERATION_FAILED + refusal(SheetNames(w)[refused.value])))
      && (refused.None? ==>
            && r.Ok?
            && r.value.1 == w
            && |r.value.0| >= 1
            && r.value.0[..|r.value.0| - 1] == ParticipantDir(outputDir, participantId)
            && FreeName(existing, FilePrefix(XLSX_FILE_PREFIX, XLSX_DEFAULT), "xlsx", r.value.0[|r.value.0| - 1]))
  {
    if !outputDirExists {
      return Err(OUTPUT_MISSING + Join(outputDir, "/"));
    }
    var inputs := ReportInputs(entries);
    if inputs.Err? {
      return Err(inputs.error);
    }
    var path := BuildXlsxFile(outputDir, participantId, XLSX_FILE_PREFIX, existing);
    var workbook := BuildWorkbook(participantId, generatedAtUtc, inputs.value, read);
    var names := SheetNames(workbook);
    var refused := FirstRefused(names, 0);
    if refused.Some? {
      return Err(GENERATION_FAILED + refusal(names[refused.value]));
    }
    return Ok((path, workbook));
  }
}
