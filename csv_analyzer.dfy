/** The time-coverage analyzer (`DesktopCsvAnalyzer`): it picks the exported
    CSV files of an output folder, writes a copy with timestamp columns
    rendered in Korea time, and reports which minutes the records cover and
    where minutes are missing.

    Time is integer epoch milliseconds. Parsing an ISO-8601 instant
    (`Instant.parse`), bucketing an instant into its Asia/Seoul minute and
    rendering instants and minutes as text are parameters of the model:
    `isoParse`, `localMinute`, `renderKst` and `renderMinute`. A minute is an
    integer index, so the text keys `yyyy-MM-dd HH:mm` the source sorts and
    subtracts become numbers that are sorted and subtracted. */
module CsvAnalyzer {
  import opened Wrappers
  import opened Text
  import opened Collections
  import opened CsvUtils
  import opened CsvReading

  // ------------------------------------------------------------- file names

  /** `File.extension`: the text after the last dot, or nothing. */
  function Extension(name: string): (r: string)
    ensures '.' !in r
    ensures '.' !in name ==> r == []
  {
    match LastIndexOfChar(name, '.')
    case None => []
    case Some(i) =>
      var r := name[i + 1..];
      assert forall k :: 0 <= k < |r| ==> r[k] == name[i + 1 + k];
      r
  }

  /** `File.nameWithoutExtension`: the text before the last dot. */
  function NameWithoutExtension(name: string): (r: string)
    ensures StartsWith(name, r)
    ensures '.' !in name ==> r == name
  {
    match LastIndexOfChar(name, '.')
    case None => name
    case Some(i) => name[..i]
  }

  /** Splitting a name at its last dot loses nothing. */
  lemma NameParts(name: string)
    requires '.' in name
    ensures NameWithoutExtension(name) + "." + Extension(name) == name
  {
    var i := LastIndexOfChar(name, '.').value;
    assert name == name[..i] + "." + name[i + 1..];
  }

  /** One entry of the output folder's listing. */
  datatype DirEntry = DirEntry(name: string, isFile: bool)

  /** The input rule: a `.csv` file whose name carries `_export` and is not
      an analyzer output (`_korea_time`, `collection_analysis`); all tests
      ignore case. */
  predicate IsAnalyzerInput(e: DirEntry) {
    e.isFile
    && EqualsIgnoreCase(Extension(e.name), "csv")
    && ContainsIgnoreCase(e.name, "_export")
    && !ContainsIgnoreCase(e.name, "_korea_time")
    && !ContainsIgnoreCase(e.name, "collection_analysis")
  }

  predicate NameLe(a: DirEntry, b: DirEntry) {
    StrLe(a.name, b.name)
  }

  lemma NameLeTotal()
    ensures IsTotalPreorder(NameLe)
  {
    forall a: DirEntry, b: DirEntry ensures NameLe(a, b) || NameLe(b, a) {
      StrLeTotal(a.name, b.name);
    }
    forall a: DirEntry, b: DirEntry, c: DirEntry | NameLe(a, b) && NameLe(b, c)
      ensures NameLe(a, c)
    {
      StrLeTrans(a.name, b.name, c.name);
    }
  }

  /** The analyzer's inputs, in name order: every passing entry as often
      as it is listed, and nothing else. */
  function SelectInputs(entries: seq<DirEntry>): (r: seq<DirEntry>)
    ensures forall e :: e in r <==> e in entries && IsAnalyzerInput(e)
    ensures forall e :: multiset(r)[e] == if IsAnalyzerInput(e) then multiset(entries)[e] else 0
    ensures SortedBy(r, NameLe)
    ensures |r| <= |entries|
  {
    NameLeTotal();
    var chosen := Filter(entries, IsAnalyzerInput);
    var r := SortBy(chosen, NameLe);
    assert forall e :: multiset(r)[e] == if IsAnalyzerInput(e) then multiset(entries)[e] else 0 by {
      forall e ensures multiset(r)[e] == if IsAnalyzerInput(e) then multiset(entries)[e] else 0 {
        FilterCount(entries, IsAnalyzerInput, e);
      }
    }
    assert forall e :: e in r <==> e in chosen by {
      forall e ensures e in r <==> e in chosen {
        SortByMembers(chosen, NameLe, e);
      }
    }
    assert |r| == |multiset(r)| == |multiset(chosen)| == |chosen|;
    r
  }

  /** The Korea-time copy of `x_export.csv` is written under the prefix
      `x_export_korea_time`. */
  function KoreaTimePrefix(inputName: string): string {
    NameWithoutExtension(inputName) + "_korea_time"
  }

  // --------------------------------------------------------- epoch parsing

  const SECONDS_LOW: int := 1_000_000_000
  const SECONDS_HIGH: int := 9_999_999_999

  /** Ten-digit integers are read as epoch seconds, everything else as
      milliseconds. */
  function ScaleEpoch(n: int): int {
    if SECONDS_LOW <= n <= SECONDS_HIGH then n * 1000 else n
  }

  /** The seconds window is exactly the positive numbers of ten digits. */
  lemma SecondsAreTenDigits(n: nat)
    ensures SECONDS_LOW <= n <= SECONDS_HIGH <==> |NatToString(n)| == 10
  {
    DigitCount(n, 10);
    assert Pow10(9) == SECONDS_LOW && Pow10(10) == SECONDS_HIGH + 1 by {
      assert Pow10(1) == 10;
      assert Pow10(2) == 100;
      assert Pow10(3) == 1000;
      assert Pow10(5) == 100000;
      assert Pow10(7) == 10000000;
    }
  }

  /** The value of a cleaned-up cell: an integer is scaled by
      `ScaleEpoch`; any other text, with spaces turned into `T`, goes to the
      ISO-8601 parser. */
  function EpochOfText(t: string, isoParse: string -> Option<int>): (r: Option<int>)
    ensures ParseLong(t).Some? ==> r == Some(ScaleEpoch(ParseLong(t).value))
    ensures ParseLong(t).None? ==> r == isoParse(MapBad(t, c => c == ' ', 'T'))
  {
    match ParseLong(t)
    case Some(n) => Some(ScaleEpoch(n))
    case None => isoParse(MapBad(t, c => c == ' ', 'T'))
  }

  /** The cell text with surrounding whitespace, then double quotes, cut. */
  function CleanCell(raw: string): string {
    TrimChar(Trim(raw), '"')
  }

  /** `parseEpochMillisOrNull` of the analyzer (and its copy in the status
      scanner): nothing for a missing or blank cell, otherwise the value of
      the cleaned-up text. */
  function EpochMillis(raw: Option<string>, isoParse: string -> Option<int>): (r: Option<int>)
    ensures raw.None? || IsBlank(raw.value) ==> r.None?
    ensures raw.Some? && !IsBlank(raw.value) ==> r == EpochOfText(CleanCell(raw.value), isoParse)
  {
    if raw.None? || IsBlank(raw.value) then None
    else EpochOfText(CleanCell(raw.value), isoParse)
  }

  /** Text whose ends are neither whitespace nor a double quote is its own
      cleaned-up form. */
  lemma CleanCellNoop(x: string)
    requires x != [] && !IsWhitespace(x[0]) && !IsWhitespace(x[|x| - 1])
    requires x[0] != '"' && x[|x| - 1] != '"'
    ensures CleanCell(x) == x && !IsBlank(x)
  {
    TrimByPadded([], x, [], IsWhitespace);
    TrimByPadded([], x, [], IsChar('"'));
    assert [] + x + [] == x;
  }

  /** A rendered 64-bit integer is read as itself, scaled when it has ten
      digits. */
  lemma EpochOfInteger(n: int, isoParse: string -> Option<int>)
    requires MIN_LONG <= n <= MAX_LONG
    ensures EpochMillis(Some(IntToString(n)), isoParse) == Some(ScaleEpoch(n))
  {
    ParseLongIntToString(n);
    IntToStringEnds(n);
    CleanCellNoop(IntToString(n));
  }

  /** Surrounding whitespace and one pair of double quotes do not change the
      value read. */
  lemma EpochIgnoresPadding(w1: string, x: string, w2: string, isoParse: string -> Option<int>)
    requires IsBlank(w1) && IsBlank(w2)
    requires x != [] && !IsWhitespace(x[0]) && !IsWhitespace(x[|x| - 1])
    requires x[0] != '"' && x[|x| - 1] != '"'
    ensures EpochMillis(Some(w1 + "\"" + x + "\"" + w2), isoParse) == EpochMillis(Some(x), isoParse)
  {
    CleanCellNoop(x);
    CleanCellPadded(w1, x, w2);
  }

  /** Blank padding around a quoted text is cleaned away, and the padded
      text is not blank. */
  lemma CleanCellPadded(w1: string, x: string, w2: string)
    requires IsBlank(w1) && IsBlank(w2)
    requires x != [] && !IsWhitespace(x[0]) && !IsWhitespace(x[|x| - 1])
    requires x[0] != '"' && x[|x| - 1] != '"'
    ensures CleanCell(w1 + "\"" + x + "\"" + w2) == x
    ensures !IsBlank(w1 + "\"" + x + "\"" + w2)
  {
    var q := "\"" + x + "\"";
    var padded := w1 + q + w2;
    assert padded == w1 + "\"" + x + "\"" + w2;
    assert q[0] == '"' && q[|q| - 1] == '"' && !IsWhitespace('"');
    TrimByPadded(w1, q, w2, IsWhitespace);
    TrimByPadded("\"", x, "\"", IsChar('"'));
    assert padded[|w1|] == '"';
  }

  /** `convertToKstStringOrOriginal`: a readable timestamp is rendered in
      Korea time, anything else is kept as it is. */
  function ConvertToKst(raw: string, isoParse: string -> Option<int>, renderKst: int -> string): (r: string)
    ensures EpochMillis(Some(raw), isoParse).None? ==> r == raw
    ensures EpochMillis(Some(raw), isoParse).Some? ==> r == renderKst(EpochMillis(Some(raw), isoParse).value)
  {
    match EpochMillis(Some(raw), isoParse)
    case Some(ms) => renderKst(ms)
    case None => raw
  }

  // ------------------------------------------------------ timestamp columns

  /** The alternatives of the analyzer's timestamp-column pattern. */
  const TIMESTAMP_NAMES: seq<string> := ["ingestedAt", "endedAt", "endAt", "startedAt", "startAt",
    "createdAt", "updatedAt", "timestamp", "timeStamp", "eventTime", "eventTimestamp",
    "recordedAt", "receivedAt", "uploadedAt"]

  /** `timestampRegex.containsMatchIn(col)`: the column name contains one of
      the alternatives, ignoring (ASCII) case. */
  predicate IsTimestampColumn(col: string) {
    exists n :: n in TIMESTAMP_NAMES && ContainsIgnoreCase(col, n)
  }

  /** The header's timestamp columns, in header order. */
  function TimestampColumns(header: seq<string>): (r: seq<string>)
    ensures forall c :: c in r <==> c in header && IsTimestampColumn(c)
  {
    Filter(header, IsTimestampColumn)
  }

  /** Case-insensitive equality keeps the pattern's verdict. */
  lemma TimestampColumnIgnoresCase(a: string, b: string)
    requires EqualsIgnoreCase(a, b)
    ensures IsTimestampColumn(a) <==> IsTimestampColumn(b)
  {
  }

  /** `timestampColumns.any { it.equals(col, ignoreCase = true) }`. */
  predicate ConvertsColumn(tsCols: seq<string>, col: string) {
    exists t :: t in tsCols && EqualsIgnoreCase(t, col)
  }

  /** For a header column, the test the row loop performs is the pattern
      test itself. */
  lemma ConvertedColumnIff(header: seq<string>, col: string)
    requires col in header
    ensures ConvertsColumn(TimestampColumns(header), col) <==> IsTimestampColumn(col)
  {
    if IsTimestampColumn(col) {
      assert col in TimestampColumns(header) && EqualsIgnoreCase(col, col);
    }
    forall t | t in TimestampColumns(header) && EqualsIgnoreCase(t, col)
      ensures IsTimestampColumn(col)
    {
      TimestampColumnIgnoresCase(t, col);
    }
  }

  /** `row.getOrNull(idx).orEmpty()`. */
  function CellAt(row: seq<string>, idx: nat): string {
    if idx < |row| then row[idx] else ""
  }

  /** One cell of the Korea-time copy. */
  function ConvertCell(tsCols: seq<string>, col: string, v: string, isoParse: string -> Option<int>,
                       renderKst: int -> string): string {
    if ConvertsColumn(tsCols, col) then ConvertToKst(v, isoParse, renderKst) else v
  }

  /** One row of the Korea-time copy: exactly one cell per header column; a
      missing cell is empty; timestamp columns are converted and every other
      cell is copied. */
  function ConvertRow(header: seq<string>, row: seq<string>, isoParse: string -> Option<int>,
                      renderKst: int -> string): (out: seq<string>)
    ensures |out| == |header|
    ensures forall i :: 0 <= i < |header| && !IsTimestampColumn(header[i]) ==> out[i] == CellAt(row, i)
    ensures forall i :: 0 <= i < |header| && IsTimestampColumn(header[i]) ==>
      out[i] == ConvertToKst(CellAt(row, i), isoParse, renderKst)
  {
    var tsCols := TimestampColumns(header);
    var out := seq(|header|, idx requires 0 <= idx < |header| =>
      ConvertCell(tsCols, header[idx], CellAt(row, idx), isoParse, renderKst));
    forall i | 0 <= i < |header|
      ensures out[i] == (if IsTimestampColumn(header[i]) then ConvertToKst(CellAt(row, i), isoParse, renderKst)
                         else CellAt(row, i))
    {
      ConvertedColumnIff(header, header[i]);
    }
    out
  }

  /** The lines of the Korea-time copy. */
  function KoreaTimeLines(file: CsvFile, isoParse: string -> Option<int>, renderKst: int -> string): (lines: seq<string>)
    ensures |lines| == |file.rows| + 1
  {
    [EncodeRow(file.header)]
      + seq(|file.rows|, i requires 0 <= i < |file.rows| =>
          EncodeRow(ConvertRow(file.header, file.rows[i], isoParse, renderKst)))
  }

  // --------------------------------------------------------- minute coverage

  /** The columns consulted for coverage, in priority order. */
  const PRIORITY_COLUMNS: seq<string> := ["ingestedAt", "endedAt", "endAt", "createdAt", "startedAt", "startAt"]

  predicate HeaderHas(header: seq<string>, name: string) {
    exists h :: h in header && EqualsIgnoreCase(h, name)
  }

  /** The position of the first name the header has, ignoring case. */
  function FirstPresent(names: seq<string>, header: seq<string>): (r: Option<nat>)
    ensures r.Some? ==> r.value < |names| && HeaderHas(header, names[r.value])
    ensures r.Some? ==> forall j :: 0 <= j < r.value ==> !HeaderHas(header, names[j])
    ensures r.None? <==> forall j :: 0 <= j < |names| ==> !HeaderHas(header, names[j])
  {
    if names == [] then None
    else if HeaderHas(header, names[0]) then Some(0)
    else match FirstPresent(names[1..], header)
      case None => None
      case Some(k) => Some(k + 1)
  }

  /** `chosenCol`: the first priority column the header has. */
  function ChosenColumn(header: seq<string>): (r: Option<string>)
    ensures r.Some? ==> r.value in PRIORITY_COLUMNS && HeaderHas(header, r.value)
    ensures r.None? <==> forall n :: n in PRIORITY_COLUMNS ==> !HeaderHas(header, n)
  {
    match FirstPresent(PRIORITY_COLUMNS, header)
    case Some(k) => Some(PRIORITY_COLUMNS[k])
    case None => None
  }

  /** The minute a row's chosen cell falls in, if it is readable. */
  function RowMinute(row: seq<string>, col: nat, isoParse: string -> Option<int>,
                     localMinute: int -> int): Option<int>
  {
    match EpochMillis(if col < |row| then Some(row[col]) else None, isoParse)
    case Some(ms) => Some(localMinute(ms))
    case None => None
  }

  /** The minutes of the readable rows, in row order (with repeats). */
  function RowMinutes(rows: seq<seq<string>>, col: nat, isoParse: string -> Option<int>,
                      localMinute: int -> int): (r: seq<int>)
    ensures |r| <= |rows|
  {
    MapNotNull(rows, r => RowMinute(r, col, isoParse, localMinute))
  }

  lemma RowMinutesSnoc(rows: seq<seq<string>>, i: nat, col: nat, isoParse: string -> Option<int>,
                       localMinute: int -> int)
    requires i < |rows|
    ensures var m := RowMinute(rows[i], col, isoParse, localMinute);
      RowMinutes(rows[..i + 1], col, isoParse, localMinute)
        == RowMinutes(rows[..i], col, isoParse, localMinute) + (if m.Some? then [m.value] else [])
  {
    assert rows[..i + 1][..i] == rows[..i];
  }

  /** A minute is covered exactly when some readable row falls in it. */
  lemma CoveredMinutes(rows: seq<seq<string>>, col: nat, isoParse: string -> Option<int>,
                       localMinute: int -> int, m: int)
    ensures m in RowMinutes(rows, col, isoParse, localMinute) <==>
      exists i :: 0 <= i < |rows| && RowMinute(rows[i], col, isoParse, localMinute) == Some(m)
  {
    MapNotNullMembers(rows, r => RowMinute(r, col, isoParse, localMinute), m);
  }

  /** The row loop that fills `minuteKeys`: each minute is recorded the
      first time a row falls in it. */
  method CollectMinuteKeys(rows: seq<seq<string>>, col: nat, isoParse: string -> Option<int>,
                           localMinute: int -> int) returns (keys: seq<int>)
    ensures keys == Distinct(RowMinutes(rows, col, isoParse, localMinute))
  {
    keys := [];
    for i := 0 to |rows|
      invariant keys == AddAll([], RowMinutes(rows[..i], col, isoParse, localMinute))
    {
      RowMinutesSnoc(rows, i, col, isoParse, localMinute);
      var m := RowMinute(rows[i], col, isoParse, localMinute);
      if m.None? {
        assert RowMinutes(rows[..i], col, isoParse, localMinute) + [] == RowMinutes(rows[..i], col, isoParse, localMinute);
      } else {
        AddAllSnoc([], RowMinutes(rows[..i], col, isoParse, localMinute), m.value);
        if m.value !in keys {
          keys := keys + [m.value];
        }
      }
    }
    assert rows[..|rows|] == rows;
  }

  // ------------------------------------------------------------------ gaps

  /** A run of missing minutes between two covered ones. */
  datatype Gap = Gap(prev: int, cur: int, missing: int)

  /** The gaps of a sorted minute list: one per consecutive pair more than a
      minute apart, with the number of minutes in between. */
  function Gaps(s: seq<int>): seq<Gap>
    decreases |s|
  {
    if |s| < 2 then []
    else
      var a := s[|s| - 2];
      var b := s[|s| - 1];
      Gaps(s[..|s| - 1]) + (if b - a > 1 then [Gap(a, b, b - a - 1)] else [])
  }

  /** The loop over consecutive minutes that fills `missing`. */
  method ComputeGaps(sorted: seq<int>) returns (missing: seq<Gap>)
    ensures missing == Gaps(sorted)
  {
    missing := [];
    if |sorted| < 2 {
      return;
    }
    for i := 1 to |sorted|
      invariant missing == Gaps(sorted[..i])
    {
      var diff := sorted[i] - sorted[i - 1];
      assert sorted[..i + 1][..i] == sorted[..i];
      if diff > 1 {
        missing := missing + [Gap(sorted[i - 1], sorted[i], diff - 1)];
      }
    }
    assert sorted[..|sorted|] == sorted;
  }

  predicate StrictlyIncreasing(s: seq<int>) {
    forall i, j :: 0 <= i < j < |s| ==> s[i] < s[j]
  }

  function TotalMissing(gaps: seq<Gap>): int {
    if gaps == [] then 0 else TotalMissing(gaps[..|gaps| - 1]) + gaps[|gaps| - 1].missing
  }

  lemma {:induction false} TotalMissingAppend(a: seq<Gap>, b: seq<Gap>)
    ensures TotalMissing(a + b) == TotalMissing(a) + TotalMissing(b)
    decreases |b|
  {
    if b == [] {
      assert a + b == a;
    } else {
      assert (a + b)[..|a + b| - 1] == a + b[..|b| - 1];
      assert (a + b)[|a + b| - 1] == b[|b| - 1];
      TotalMissingAppend(a, b[..|b| - 1]);
    }
  }

  /** Every gap lies between two neighbouring covered minutes and counts
      exactly the minutes strictly between them. */
  lemma {:induction false} GapsAreBetweenNeighbours(s: seq<int>)
    decreases |s|
    ensures forall g :: g in Gaps(s) ==> (g.missing == g.cur - g.prev - 1 > 0
      && exists i :: 1 <= i < |s| && s[i - 1] == g.prev && s[i] == g.cur)
  {
    if |s| >= 2 {
      var init := s[..|s| - 1];
      GapsAreBetweenNeighbours(init);
      assert forall i :: 0 <= i < |init| ==> init[i] == s[i];
    }
  }

  /** No gap is reported exactly when the covered minutes form one unbroken
      run. */
  lemma {:induction false} NoGapsIffUnbroken(s: seq<int>)
    requires StrictlyIncreasing(s)
    decreases |s|
    ensures Gaps(s) == [] <==> forall i :: 1 <= i < |s| ==> s[i] == s[i - 1] + 1
  {
    if |s| >= 2 {
      var init := s[..|s| - 1];
      assert forall i :: 0 <= i < |init| ==> init[i] == s[i];
      NoGapsIffUnbroken(init);
      var a, b := s[|s| - 2], s[|s| - 1];
      assert a < b;
      var last := if b - a > 1 then [Gap(a, b, b - a - 1)] else [];
      assert Gaps(s) == Gaps(init) + last;
      if forall i :: 1 <= i < |s| ==> s[i] == s[i - 1] + 1 {
        assert forall i :: 1 <= i < |init| ==> init[i] == init[i - 1] + 1;
        assert b == a + 1;
      }
    }
  }

  /** The missing minutes add up to the minutes of the covered span that no
      record falls in. */
  lemma {:induction false} MissingMinutesTotal(s: seq<int>)
    requires StrictlyIncreasing(s) && |s| >= 1
    decreases |s|
    ensures TotalMissing(Gaps(s)) == (s[|s| - 1] - s[0] + 1) - |s|
  {
    if |s| >= 2 {
      var init := s[..|s| - 1];
      MissingMinutesTotal(init);
      var a := s[|s| - 2];
      var b := s[|s| - 1];
      var tail := if b - a > 1 then [Gap(a, b, b - a - 1)] else [];
      TotalMissingAppend(Gaps(init), tail);
      if b - a > 1 {
        assert TotalMissing(tail) == b - a - 1 by {
          assert tail[..0] == [];
        }
      }
    }
  }

  /** The text of one gap entry. */
  function GapText(g: Gap, renderMinute: int -> string): string {
    renderMinute(g.prev) + " -> " + renderMinute(g.cur) + " (missing " + IntToString(g.missing) + "m)"
  }

  /** The key/value rows at the head of `collection_analysis`; the
      minimum and maximum minute appear only when some minute is covered. */
  function SummaryLines(inputName: string, recordCount: nat, chosen: Option<string>,
                        minutes: seq<int>, renderMinute: int -> string): seq<string>
  {
    [EncodeRow(["key", "value"]),
     EncodeRow(["inputFile", inputName]),
     EncodeRow(["recordCount", NatToString(recordCount)]),
     EncodeRow(["timestampField", chosen.GetOr("(none)")]),
     EncodeRow(["coveredMinutes", NatToString(|minutes|)])]
    + (if minutes != [] then
         [EncodeRow(["minMinute", renderMinute(minutes[0])]),
          EncodeRow(["maxMinute", renderMinute(minutes[|minutes| - 1])])]
       else [])
  }

  /** The `minute` section: one line per covered minute. */
  function MinuteLines(minutes: seq<int>, renderMinute: int -> string): seq<string> {
    ["", Escape("minute")] + seq(|minutes|, i requires 0 <= i < |minutes| => Escape(renderMinute(minutes[i])))
  }

  /** The `gaps` section: one line per gap, or `(none)`. */
  function GapLines(gaps: seq<Gap>, renderMinute: int -> string): (r: seq<string>)
    ensures |r| >= 3
  {
    ["", Escape("gaps")]
    + (if gaps == [] then [Escape("(none)")] else GapItems(gaps, renderMinute))
  }

  /** One escaped line per gap. */
  function GapItems(gaps: seq<Gap>, renderMinute: int -> string): (r: seq<string>)
    ensures |r| == |gaps|
    ensures forall i :: 0 <= i < |gaps| ==> r[i] == Escape(GapText(gaps[i], renderMinute))
  {
    seq(|gaps|, i requires 0 <= i < |gaps| => Escape(GapText(gaps[i], renderMinute)))
  }

  /** The lines of `collection_analysis`. */
  function AnalysisLines(inputName: string, recordCount: nat, chosen: Option<string>,
                         minutes: seq<int>, gaps: seq<Gap>, renderMinute: int -> string): seq<string>
  {
    SummaryLines(inputName, recordCount, chosen, minutes, renderMinute)
      + MinuteLines(minutes, renderMinute) + GapLines(gaps, renderMinute)
  }

  /** Every gap entry shows an arrow. */
  lemma GapTextHasArrow(g: Gap, renderMinute: int -> string)
    ensures '>' in Escape(GapText(g, renderMinute))
  {
    var pre := renderMinute(g.prev) + " -";
    var t := GapText(g, renderMinute);
    assert t == pre + ">" + (" " + renderMinute(g.cur) + " (missing " + IntToString(g.missing) + "m)");
    assert t[|pre|] == '>';
    EscapeKeepsChars(t, '>');
  }

  /** The `(none)` marker is written as is and holds no arrow. */
  lemma NoneMarker()
    ensures Escape("(none)") == "(none)"
    ensures '>' !in "(none)"
  {
    var t := "(none)";
    assert t == ['(', 'n', 'o', 'n', 'e', ')'];
    assert !NeedsQuoting(t);
  }

  /** The gap section ends with `(none)` exactly when there is no gap. */
  lemma GapLinesNone(gaps: seq<Gap>, renderMinute: int -> string)
    ensures var tail := GapLines(gaps, renderMinute);
      tail[|tail| - 1] == "(none)" <==> gaps == []
  {
    if gaps == [] {
      NoneMarker();
    } else {
      var items := GapItems(gaps, renderMinute);
      LastOfAppend(["", Escape("gaps")], items);
      GapTextHasArrow(gaps[|gaps| - 1], renderMinute);
      NoneMarker();
    }
  }

  /** Whatever precedes the `gaps` section, the analysis ends with
      `(none)` exactly when no gap was found. */
  lemma NoneMarksNoGaps(head: seq<string>, gaps: seq<Gap>, renderMinute: int -> string)
    ensures var lines := head + GapLines(gaps, renderMinute);
      lines[|lines| - 1] == "(none)" <==> gaps == []
  {
    LastOfAppend(head, GapLines(gaps, renderMinute));
    GapLinesNone(gaps, renderMinute);
  }

  /** The first and last reported minutes of sorted coverage are its
      minimum and maximum. */
  lemma MinMaxMinutes(minutes: seq<int>)
    requires StrictlyIncreasing(minutes) && minutes != []
    ensures forall m :: m in minutes ==> minutes[0] <= m <= minutes[|minutes| - 1]
  {
  }

  /** The analysis of one input: its Korea-time copy and its coverage
      report. */
  method AnalyzeSingleFile(inputName: string, lines: seq<string>, isoParse: string -> Option<int>,
                           localMinute: int -> int, renderKst: int -> string,
                           renderMinute: int -> string)
    returns (koreaTime: seq<string>, analysis: seq<string>)
    ensures var file := Read(lines);
      koreaTime == KoreaTimeLines(file, isoParse, renderKst)
      && analysis == AnalysisLines(inputName, |file.rows|, ChosenColumn(file.header),
           SortedMinutes(file, isoParse, localMinute),
           Gaps(SortedMinutes(file, isoParse, localMinute)), renderMinute)
  {
    var file := Read(lines);
    koreaTime := KoreaTimeLines(file, isoParse, renderKst);
    var chosen := ChosenColumn(file.header);
    var keys: seq<int> := [];
    if chosen.Some? {
      var colIndex := IndexOfFirstIgnoreCase(file.header, chosen.value).value;
      keys := CollectMinuteKeys(file.rows, colIndex, isoParse, localMinute);
    }
    IntLeTotal();
    var sorted := SortBy(Distinct(keys), IntLe);
    var missing := ComputeGaps(sorted);
    analysis := AnalysisLines(inputName, |file.rows|, chosen, sorted, missing, renderMinute);
  }

  /** The minute keys of a file: distinct, then sorted. */
  function SortedMinutes(file: CsvFile, isoParse: string -> Option<int>, localMinute: int -> int): (r: seq<int>)
    ensures StrictlyIncreasing(r)
  {
    IntLeTotal();
    var keys := match ChosenColumn(file.header)
      case None => []
      case Some(c) =>
        var colIndex := IndexOfFirstIgnoreCase(file.header, c).value;
        Distinct(RowMinutes(file.rows, colIndex, isoParse, localMinute));
    var r := SortBy(Distinct(keys), IntLe);
    PermutationNoDuplicates(Distinct(keys), r);
    SortedDistinctIncreasing(r);
    r
  }
}
