/** The participant status scanner (`DesktopParticipantStatusRepository`):
    it walks the output folder, groups the CSV and Excel files by
    participant, and summarises each participant's record count, latest
    timestamp and minute gaps.

    The folder walk is a list of entries with each file's name, its parent
    folder's name and its lines (`None` when the file cannot be read).
    Reading a Korea-time `yyyy-MM-dd HH:mm[:ss]` text (`kstParse`), reading
    an ISO-8601 instant (`isoParse`) and truncating an instant to its
    Asia/Seoul minute (`localMinute`) are parameters. The scanner's own copies
    of the line parser and of `parseEpochMillisOrNull` are the same code as the
    analyzer's, so the model uses `CsvReading.ParseLine` and
    `CsvAnalyzer.EpochMillis` for both. */
module ParticipantStatus {
  import opened Wrappers
  import opened Text
  import opened Collections
  import opened CsvReading
  import opened CsvAnalyzer

  // ------------------------------------------ participant id from a file name

  /** Lower-casing never produces `_` from another character. */
  lemma LowerUnderscore(c: char)
    ensures LowerChar(c) == '_' <==> c == '_'
  {
  }

  /** The lower-case literal `p` occurs in `s` at `k`, ignoring ASCII case. */
  predicate LiteralAt(s: string, p: string, k: nat) {
    k + |p| <= |s| && Lower(s[k..k + |p|]) == p
  }

  /** The length of the longest run without `_` that starts at `i`. */
  function WordRun(s: string, i: nat): (n: nat)
    requires i <= |s|
    decreases |s| - i
    ensures i + n <= |s|
    ensures forall k :: i <= k < i + n ==> s[k] != '_'
    ensures i + n == |s| || s[i + n] == '_'
  {
    if i == |s| || s[i] == '_' then 0 else 1 + WordRun(s, i + 1)
  }

  /** A run without `_` that ends just before a `_` is the longest one. */
  lemma {:induction false} WordRunExact(s: string, i: nat, n: nat)
    requires i + n < |s| && s[i + n] == '_'
    requires forall k :: i <= k < i + n ==> s[k] != '_'
    decreases n
    ensures WordRun(s, i) == n
  {
    if n > 0 {
      WordRunExact(s, i + 1, n - 1);
    }
  }

  const STUDIES: string := "studies__"
  const PARTICIPANTS: string := "__participants__"

  /** The match of `studies__[^_]+__participants__([^_]+)__` (ignoring case)
      that starts at `k`, given as its group. */
  function IdMatchAt(s: string, k: nat): (r: Option<string>)
  {
    PatternAt(s, k, STUDIES, PARTICIPANTS, "__")
  }

  /** The match of `open[^_]+mid([^_]+)close` (ignoring case) that starts at
      `k`, given as its group. When `mid` and `close` begin with `_`, each
      `[^_]+` is followed by `_`, so only its longest run can lead to a
      match. */
  function PatternAt(s: string, k: nat, open: string, mid: string, close: string): (r: Option<string>)
  {
    if !LiteralAt(s, open, k) then None else WordThenGroup(s, k + |open|, mid, close)
  }

  /** From `a`: the longest `[^_]+` run, then `mid`, then the group. */
  function WordThenGroup(s: string, a: nat, mid: string, close: string): (r: Option<string>)
  {
    if a > |s| then None
    else
      var n := WordRun(s, a);
      if n == 0 || !LiteralAt(s, mid, a + n) then None else GroupAt(s, a + n + |mid|, close)
  }

  /** From `c`: the longest `[^_]+` run as the group, then `close`. */
  function GroupAt(s: string, c: nat, close: string): (r: Option<string>)
  {
    if c > |s| then None
    else
      var m := WordRun(s, c);
      if m == 0 || !LiteralAt(s, close, c + m) then None
      else
        Some(s[c..c + m])
  }

  /** The regular expression read literally: from `k` the name holds
      `studies__`, the study word `w`, `__participants__`, the id and `__`,
      where `w` and the id are non-empty and have no `_`. */
  ghost predicate RegexMatch(s: string, k: nat, w: string, id: string) {
    PatternMatch(s, k, STUDIES, PARTICIPANTS, "__", w, id)
  }

  /** `open`, the word `w`, `mid`, the id and `close` from `k`, the word and
      the id non-empty and without `_`. */
  ghost predicate PatternMatch(s: string, k: nat, open: string, mid: string, close: string,
                               w: string, id: string) {
    LiteralAt(s, open, k) && WordMatch(s, k + |open|, mid, close, w, id)
  }

  /** From `a`: the word `w`, `mid`, then the id and `close`. */
  ghost predicate WordMatch(s: string, a: nat, mid: string, close: string, w: string, id: string) {
    && w != [] && '_' !in w && a + |w| <= |s| && s[a..a + |w|] == w
    && LiteralAt(s, mid, a + |w|) && GroupMatch(s, a + |w| + |mid|, close, id)
  }

  /** From `c`: the id, then `close`. */
  ghost predicate GroupMatch(s: string, c: nat, close: string, id: string) {
    id != [] && '_' !in id && c + |id| <= |s| && s[c..c + |id|] == id && LiteralAt(s, close, c + |id|)
  }

  /** A literal that begins with `_` sits on a `_`. */
  lemma LiteralUnderscore(s: string, p: string, k: nat)
    requires LiteralAt(s, p, k) && p != [] && p[0] == '_'
    ensures s[k] == '_'
  {
    assert Lower(s[k..k + |p|])[0] == LowerChar(s[k]);
    LowerUnderscore(s[k]);
  }

  /** What the matcher finds at a position is a match of the regular
      expression there. */
  lemma IdMatchAtSound(s: string, k: nat, id: string)
    requires IdMatchAt(s, k) == Some(id)
    ensures exists w :: RegexMatch(s, k, w, id)
  {
    var w := PatternSound(s, k, STUDIES, PARTICIPANTS, "__", id);
    assert RegexMatch(s, k, w, id);
  }

  /** What `PatternAt` finds is a match, with the longest run as its word. */
  lemma PatternSound(s: string, k: nat, open: string, mid: string, close: string, id: string)
    returns (w: string)
    requires PatternAt(s, k, open, mid, close) == Some(id)
    ensures PatternMatch(s, k, open, mid, close, w, id)
  {
    w := WordSound(s, k + |open|, mid, close, id);
  }

  /** What `WordThenGroup` finds: the longest run as the word, then `mid`
      and the group. */
  lemma WordSound(s: string, a: nat, mid: string, close: string, id: string) returns (w: string)
    requires WordThenGroup(s, a, mid, close) == Some(id)
    ensures WordMatch(s, a, mid, close, w, id)
  {
    var n := WordRun(s, a);
    w := s[a..a + n];
    RunMatch(s, a, n, mid, close, id);
  }

  /** The longest run, when non-empty and followed by `mid` and a group,
      is the word of a match. */
  lemma RunMatch(s: string, a: nat, n: nat, mid: string, close: string, id: string)
    requires a <= |s| && n == WordRun(s, a) && n != 0
    requires LiteralAt(s, mid, a + n) && GroupAt(s, a + n + |mid|, close) == Some(id)
    ensures WordMatch(s, a, mid, close, s[a..a + n], id)
  {
    var w := s[a..a + n];
    assert '_' !in w by {
      assert forall x :: 0 <= x < |w| ==> w[x] == s[a + x];
    }
    GroupSound(s, a + n + |mid|, close, id);
  }

  /** What `GroupAt` finds is the text before `close`. */
  lemma GroupSound(s: string, c: nat, close: string, id: string)
    requires GroupAt(s, c, close) == Some(id)
    ensures GroupMatch(s, c, close, id)
  {
    assert forall x :: 0 <= x < |id| ==> id[x] == s[c + x];
  }

  /** Every match of the regular expression at a position is what the
      matcher finds there. */
  lemma IdMatchAtComplete(s: string, k: nat, w: string, id: string)
    requires RegexMatch(s, k, w, id)
    ensures IdMatchAt(s, k) == Some(id)
  {
    PatternComplete(s, k, STUDIES, PARTICIPANTS, "__", w, id);
  }

  /** With `mid` and `close` beginning with `_`, every match is what
      `PatternAt` finds. */
  lemma PatternComplete(s: string, k: nat, open: string, mid: string, close: string, w: string, id: string)
    requires mid != [] && mid[0] == '_' && close != [] && close[0] == '_'
    requires PatternMatch(s, k, open, mid, close, w, id)
    ensures PatternAt(s, k, open, mid, close) == Some(id)
  {
    WordComplete(s, k + |open|, w, mid, close, id);
  }

  /** A match of the word, `mid` and the group is what `WordThenGroup`
      finds. */
  lemma WordComplete(s: string, a: nat, w: string, mid: string, close: string, id: string)
    requires mid != [] && mid[0] == '_' && close != [] && close[0] == '_'
    requires WordMatch(s, a, mid, close, w, id)
    ensures WordThenGroup(s, a, mid, close) == Some(id)
  {
    var n := |w|;
    assert s[a..a + n] == w && LiteralAt(s, mid, a + n);
    GroupComplete(s, a + n + |mid|, close, id);
    RunBeforeLiteral(s, a, w, mid);
    WordThenGroupFound(s, a, n, mid, close, id);
  }

  /** `WordThenGroup` finds the group after a non-empty longest run that
      `mid` follows. */
  lemma WordThenGroupFound(s: string, a: nat, n: nat, mid: string, close: string, id: string)
    requires a <= |s| && n == WordRun(s, a) && n != 0
    requires LiteralAt(s, mid, a + n) && GroupAt(s, a + n + |mid|, close) == Some(id)
    ensures WordThenGroup(s, a, mid, close) == Some(id)
  {
  }

  /** A match of the group and `close` is what `GroupAt` finds. */
  lemma GroupComplete(s: string, c: nat, close: string, id: string)
    requires close != [] && close[0] == '_'
    requires GroupMatch(s, c, close, id)
    ensures GroupAt(s, c, close) == Some(id)
  {
    RunBeforeLiteral(s, c, id, close);
  }

  /** A word without `_` followed by a literal starting with `_` is the
      longest run there. */
  lemma RunBeforeLiteral(s: string, a: nat, w: string, p: string)
    requires a + |w| <= |s| && s[a..a + |w|] == w && '_' !in w
    requires p != [] && p[0] == '_' && LiteralAt(s, p, a + |w|)
    ensures WordRun(s, a) == |w|
  {
    assert forall x :: a <= x < a + |w| ==> s[x] == w[x - a];
    LiteralUnderscore(s, p, a + |w|);
    WordRunExact(s, a, |w|);
  }

  /** The matcher finds exactly the matches of the regular expression at a
      position. */
  lemma IdMatchAtIsRegex(s: string, k: nat, id: string)
    ensures IdMatchAt(s, k) == Some(id) <==> exists w :: RegexMatch(s, k, w, id)
  {
    if IdMatchAt(s, k) == Some(id) {
      IdMatchAtSound(s, k, id);
    }
    if w :| RegexMatch(s, k, w, id) {
      IdMatchAtComplete(s, k, w, id);
    }
  }

  /** The leftmost position at or after `from` where `PatternAt` succeeds. */
  function MatchPosition(s: string, from: nat, open: string, mid: string, close: string): (r: Option<nat>)
    requires from <= |s|
    decreases |s| - from
    ensures r.Some? ==> from <= r.value < |s| && PatternAt(s, r.value, open, mid, close).Some?
    ensures r.Some? ==> forall j :: from <= j < r.value ==> PatternAt(s, j, open, mid, close).None?
    ensures r.None? ==> forall j :: from <= j <= |s| ==> PatternAt(s, j, open, mid, close).None?
  {
    if from == |s| then None
    else if PatternAt(s, from, open, mid, close).Some? then Some(from)
    else MatchPosition(s, from + 1, open, mid, close)
  }

  /** `participantIdFromFileNameRegex.find(name)`: the group of the leftmost
      match. */
  function IdFromFileName(name: string): Option<string> {
    match MatchPosition(name, 0, STUDIES, PARTICIPANTS, "__")
    case None => None
    case Some(k) => IdMatchAt(name, k)
  }

  /** The id read from a name is the group of a match of the regular
      expression, and no match starts further left. */
  lemma IdFromFileNameIsLeftmost(name: string, id: string)
    requires IdFromFileName(name) == Some(id)
    ensures exists k: nat, w :: (RegexMatch(name, k, w, id)
      && forall j: nat, w', id' :: j < k ==> !RegexMatch(name, j, w', id'))
  {
    var k := MatchPosition(name, 0, STUDIES, PARTICIPANTS, "__").value;
    IdMatchAtIsRegex(name, k, id);
    var w :| RegexMatch(name, k, w, id);
    forall j: nat, w', id' | j < k ensures !RegexMatch(name, j, w', id') {
      IdMatchAtIsRegex(name, j, id');
    }
  }

  /** No id is read exactly when the regular expression matches nowhere. */
  lemma IdFromFileNameNone(name: string)
    ensures IdFromFileName(name).None? <==>
      forall k: nat, w, id :: !RegexMatch(name, k, w, id)
  {
    if IdFromFileName(name).None? {
      forall k: nat, w, id ensures !RegexMatch(name, k, w, id) {
        IdMatchAtIsRegex(name, k, id);
      }
    } else {
      var id := IdFromFileName(name).value;
      IdFromFileNameIsLeftmost(name, id);
    }
  }

  /** A name that begins with `studies__<study>__participants__<p>__` gives
      `p`. */
  lemma IdFromExporterName(study: string, p: string, rest: string)
    requires study != [] && p != [] && '_' !in study && '_' !in p
    ensures IdFromFileName(STUDIES + study + PARTICIPANTS + p + "__" + rest) == Some(p)
  {
    var name := STUDIES + study + PARTICIPANTS + p + "__" + rest;
    var b := |STUDIES| + |study|;
    var c := b + |PARTICIPANTS|;
    var d := c + |p|;
    assert name[..|STUDIES|] == STUDIES;
    assert name[|STUDIES|..b] == study;
    assert name[b..c] == PARTICIPANTS;
    assert name[c..d] == p;
    assert name[d..d + 2] == "__";
    assert Lower(STUDIES) == STUDIES;
    assert Lower(PARTICIPANTS) == PARTICIPANTS;
    assert Lower("__") == "__";
    assert RegexMatch(name, 0, study, p);
    IdMatchAtIsRegex(name, 0, p);
  }

  /** `extractParticipantId`: the id in the file name wins; otherwise the
      parent folder's name, unless it is blank or `output`. */
  function ParticipantIdOf(name: string, parent: Option<string>): (r: Option<string>)
    ensures IdFromFileName(name).Some? ==> r == IdFromFileName(name)
    ensures (IdFromFileName(name).None? && parent.Some? && !IsBlank(parent.value)
             && parent.value != "output") ==> r == parent
    ensures r.None? <==> (IdFromFileName(name).None?
                          && (parent.None? || IsBlank(parent.value) || parent.value == "output"))
  {
    match IdFromFileName(name)
    case Some(id) => Some(id)
    case None =>
      if parent.Some? && !IsBlank(parent.value) && parent.value != "output" then parent
      else None
  }

  /** The group a file falls in: its participant id, or `(unknown)`. */
  function GroupKey(name: string, parent: Option<string>): string {
    ParticipantIdOf(name, parent).GetOr("(unknown)")
  }

  // ------------------------------------------------------- file categories

  datatype Category = Export | Analyze | Excel | Other

  predicate IsXlsx(name: string) {
    EqualsIgnoreCase(Extension(name), "xlsx")
  }

  /** `collection_analysis` and `_export` add nothing to the tests for
      `analy` and `export`. */
  lemma CategoryLiterals(s: string)
    ensures Contains(s, "collection_analysis") ==> Contains(s, "analy")
    ensures Contains(s, "_export") ==> Contains(s, "export")
  {
    assert MatchAt("collection_analysis", "analy", 11);
    assert MatchAt("_export", "export", 1);
    if Contains(s, "collection_analysis") {
      ContainsTrans(s, "collection_analysis", "analy");
    }
    if Contains(s, "_export") {
      ContainsTrans(s, "_export", "export");
    }
  }

  /** `classify`: Excel by extension, then analyzer outputs, then exports,
      every name test on the lower-cased name. */
  function Classify(name: string): (r: Category)
    ensures r == Excel <==> IsXlsx(name)
    ensures r == Analyze <==> (!IsXlsx(name)
      && (Contains(Lower(name), "_korea_time") || Contains(Lower(name), "analy")))
    ensures r == Export <==> (!IsXlsx(name)
      && !Contains(Lower(name), "_korea_time") && !Contains(Lower(name), "analy")
      && Contains(Lower(name), "export"))
  {
    var lower := Lower(name);
    CategoryLiterals(lower);
    if IsXlsx(name) then Excel
    else if Contains(lower, "collection_analysis") || Contains(lower, "_korea_time")
            || Contains(lower, "analy") then Analyze
    else if Contains(lower, "_export") || Contains(lower, "export") then Export
    else Other
  }

  // ---------------------------------------------------------- timestamps

  const CANDIDATES: seq<string> := ["ingestedAt", "endedAt", "endAt", "createdAt", "startedAt",
                                    "startAt", "timestamp", "eventTime", "eventTimestamp"]

  /** `candidates.firstNotNullOfOrNull { header.indexOfFirst(...) }`: the
      column of the first candidate the header has, ignoring case. */
  function TimestampIndex(header: seq<string>): (r: Option<nat>)
    ensures r.Some? ==> r.value < |header|
    ensures r.Some? ==> exists j :: (0 <= j < |CANDIDATES|
      && IndexOfFirstIgnoreCase(header, CANDIDATES[j]) == r
      && forall i :: 0 <= i < j ==> !HeaderHas(header, CANDIDATES[i]))
    ensures r.None? <==> forall j :: 0 <= j < |CANDIDATES| ==> !HeaderHas(header, CANDIDATES[j])
  {
    match FirstPresent(CANDIDATES, header)
    case None => None
    case Some(j) => IndexOfFirstIgnoreCase(header, CANDIDATES[j])
  }

  /** `parseKstDateTimeOrNull`: the cleaned-up cell read as a Korea-time
      date and time; `kstParse` stands for the two `LocalDateTime` patterns
      tried in turn. */
  function KstInstant(raw: string, kstParse: string -> Option<int>): Option<int> {
    var t := CleanCell(raw);
    if IsBlank(t) then None else kstParse(t)
  }

  /** `extractTimestampInstant`: the chosen cell read as Korea time, or else
      as an epoch or ISO-8601 value. */
  function RowTimestamp(header: seq<string>, row: seq<string>, kstParse: string -> Option<int>,
                        isoParse: string -> Option<int>): (r: Option<int>)
    ensures header == [] || row == [] || TimestampIndex(header).None? ==> r.None?
  {
    if header == [] || row == [] then None
    else match TimestampIndex(header)
      case None => None
      case Some(i) =>
        var raw := CellAt(row, i);
        OrElse(KstInstant(raw, kstParse), EpochMillis(Some(raw), isoParse))
  }

  /** A row too short to reach the chosen column has no timestamp; a cell
      that reads as Korea time is taken as such before any other reading. */
  lemma RowTimestampCell(header: seq<string>, row: seq<string>, kstParse: string -> Option<int>,
                         isoParse: string -> Option<int>)
    requires header != [] && row != [] && TimestampIndex(header).Some?
    ensures var i := TimestampIndex(header).value;
      && (i >= |row| ==> RowTimestamp(header, row, kstParse, isoParse).None?)
      && (i < |row| && KstInstant(row[i], kstParse).Some? ==>
            RowTimestamp(header, row, kstParse, isoParse) == KstInstant(row[i], kstParse))
      && (i < |row| && KstInstant(row[i], kstParse).None? ==>
            RowTimestamp(header, row, kstParse, isoParse) == EpochMillis(Some(row[i]), isoParse))
  {
    var i := TimestampIndex(header).value;
    if i >= |row| {
      assert CellAt(row, i) == "";
      assert IsBlank(CleanCell(""));
    }
  }

  /** Kotlin `maxOrNull`, written as the source's running update: a later
      value replaces the current one only when it is strictly larger. */
  function MaxOf(s: seq<int>): (r: Option<int>)
    ensures r.None? <==> s == []
    ensures r.Some? ==> r.value in s && forall x :: x in s ==> x <= r.value
  {
    if s == [] then None
    else
      var m := MaxOf(s[..|s| - 1]);
      var x := s[|s| - 1];
      assert s == s[..|s| - 1] + [x];
      if m.None? || x > m.value then Some(x) else m
  }

  /** The timestamp of one data line; a blank line is skipped. */
  function LineTimestamp(header: seq<string>, line: string, kstParse: string -> Option<int>,
                         isoParse: string -> Option<int>): Option<int>
  {
    if IsBlank(line) then None else RowTimestamp(header, ParseLine(line), kstParse, isoParse)
  }

  function LineStamps(header: seq<string>, kstParse: string -> Option<int>,
                      isoParse: string -> Option<int>): string -> Option<int>
  {
    line => LineTimestamp(header, line, kstParse, isoParse)
  }

  /** The timestamps of the data lines, in order. */
  function LineTimestamps(header: seq<string>, data: seq<string>, kstParse: string -> Option<int>,
                          isoParse: string -> Option<int>): (r: seq<int>)
    ensures |r| <= |data|
  {
    MapNotNull(data, LineStamps(header, kstParse, isoParse))
  }

  /** The latest of a timestamp so far and a new one: the new one wins
      only when it is strictly later. */
  function Later(last: Option<int>, t: Option<int>): (r: Option<int>)
    ensures r.Some? <==> last.Some? || t.Some?
    ensures r.Some? ==> (r == last || r == t)
    ensures last.Some? ==> r.value >= last.value
    ensures t.Some? ==> r.value >= t.value
  {
    if t.Some? && (last.None? || t.value > last.value) then t else last
  }

  /** One more line: the latest timestamp moves only to a strictly later
      one. */
  lemma SummaryStep(header: seq<string>, data: seq<string>, line: string,
                    kstParse: string -> Option<int>, isoParse: string -> Option<int>)
    ensures MaxOf(LineTimestamps(header, data + [line], kstParse, isoParse))
      == Later(MaxOf(LineTimestamps(header, data, kstParse, isoParse)),
               LineTimestamp(header, line, kstParse, isoParse))
  {
    var f := LineStamps(header, kstParse, isoParse);
    var stamps := LineTimestamps(header, data, kstParse, isoParse);
    var t := LineTimestamp(header, line, kstParse, isoParse);
    assert f(line) == t;
    MapNotNullSnoc(data, line, f);
    if t.Some? {
      assert (stamps + [t.value])[..|stamps|] == stamps;
    } else {
      assert stamps + [] == stamps;
    }
  }

  // -------------------------------------------------------- file summaries

  /** One entry of the folder walk: `lines` is `None` when the file cannot
      be read. */
  datatype FileEntry = FileEntry(name: string, parent: Option<string>, isFile: bool,
                                 lines: Option<seq<string>>)

  /** `ParticipantStatusFileInfo`, without the file handle, size and
      modification time. */
  datatype FileInfo = FileInfo(name: string, category: Category, recordCount: nat,
                               lastTimestamp: Option<int>)

  /** The records of a CSV file: its non-blank lines after the header. */
  function RecordCount(lines: seq<string>): nat {
    if lines == [] then 0 else |NonBlankLines(lines[1..])|
  }

  /** The latest timestamp among a CSV file's records, read against the
      header on its first line. */
  function LatestTimestamp(lines: seq<string>, kstParse: string -> Option<int>,
                           isoParse: string -> Option<int>): Option<int>
  {
    if lines == [] then None
    else MaxOf(LineTimestamps(ParseLine(lines[0]), lines[1..], kstParse, isoParse))
  }

  /** What `summarizeFile` yields for a file: an Excel file is not read; a
      CSV file counts its records and keeps its latest timestamp; an
      unreadable CSV file fails. */
  function FileSummary(f: FileEntry, kstParse: string -> Option<int>,
                       isoParse: string -> Option<int>): (r: Option<FileInfo>)
    ensures IsXlsx(f.name) ==> r == Some(FileInfo(f.name, Excel, 0, None))
    ensures r.None? <==> !IsXlsx(f.name) && f.lines.None?
    ensures r.Some? ==> r.value.name == f.name && r.value.category == Classify(f.name)
  {
    if IsXlsx(f.name) then Some(FileInfo(f.name, Classify(f.name), 0, None))
    else match f.lines
      case None => None
      case Some(lines) =>
        Some(FileInfo(f.name, Classify(f.name), RecordCount(lines),
                      LatestTimestamp(lines, kstParse, isoParse)))
  }

  /** The record count is the number of rows `CsvFile.read` yields. */
  lemma RecordCountIsRows(lines: seq<string>)
    ensures RecordCount(lines) == |Read(lines).rows|
  {
  }

  /** `summarizeFile`'s line loop: the first line is the header, blank lines
      are skipped, every other line is a record whose timestamp may raise
      the latest one. */
  method ScanLines(lines: seq<string>, kstParse: string -> Option<int>, isoParse: string -> Option<int>)
    returns (recordCount: nat, lastTimestamp: Option<int>)
    ensures recordCount == RecordCount(lines)
    ensures lastTimestamp == LatestTimestamp(lines, kstParse, isoParse)
  {
    recordCount := 0;
    var header: seq<string> := [];
    lastTimestamp := None;
    for idx := 0 to |lines|
      invariant idx >= 1 ==> header == ParseLine(lines[0])
      invariant idx >= 1 ==> lines[..idx][0] == lines[0]
      invariant recordCount == RecordCount(lines[..idx])
      invariant lastTimestamp == LatestTimestamp(lines[..idx], kstParse, isoParse)
    {
      var line := lines[idx];
      if idx == 0 {
        header := ParseLine(line);
        FirstLineOnly(lines, kstParse, isoParse);
      } else {
        recordCount, lastTimestamp := ScanRecord(header, line, recordCount, lastTimestamp, kstParse, isoParse);
        ScanStep(lines, idx, kstParse, isoParse);
      }
    }
    assert lines[..|lines|] == lines;
  }

  /** The loop body for a line after the header: a blank line is skipped;
      any other is one more record, and its timestamp replaces the latest
      one when strictly later. */
  method ScanRecord(header: seq<string>, line: string, count: nat, last: Option<int>,
                    kstParse: string -> Option<int>, isoParse: string -> Option<int>)
    returns (recordCount: nat, lastTimestamp: Option<int>)
    ensures recordCount == count + (if IsBlank(line) then 0 else 1)
    ensures lastTimestamp == Later(last, LineTimestamp(header, line, kstParse, isoParse))
  {
    recordCount, lastTimestamp := count, last;
    if IsBlank(line) {
      return;
    }
    recordCount := recordCount + 1;
    var values := ParseLine(line);
    var ts := RowTimestamp(header, values, kstParse, isoParse);
    if ts.Some? {
      if lastTimestamp.None? || ts.value > lastTimestamp.value {
        lastTimestamp := ts;
      }
    }
  }

  /** The header line alone holds no record and no timestamp. */
  lemma FirstLineOnly(lines: seq<string>, kstParse: string -> Option<int>,
                      isoParse: string -> Option<int>)
    requires lines != []
    ensures RecordCount(lines[..1]) == 0 && LatestTimestamp(lines[..1], kstParse, isoParse).None?
  {
    assert lines[..1][1..] == [];
  }

  /** A line after the header is counted unless blank, and its timestamp
      is taken when it is later. */
  lemma ScanStep(lines: seq<string>, idx: nat, kstParse: string -> Option<int>,
                 isoParse: string -> Option<int>)
    requires 1 <= idx < |lines|
    ensures RecordCount(lines[..idx + 1])
      == RecordCount(lines[..idx]) + (if IsBlank(lines[idx]) then 0 else 1)
    ensures LatestTimestamp(lines[..idx + 1], kstParse, isoParse)
      == Later(LatestTimestamp(lines[..idx], kstParse, isoParse),
               LineTimestamp(ParseLine(lines[0]), lines[idx], kstParse, isoParse))
  {
    var data := lines[1..idx];
    assert lines[..idx][1..] == data && lines[..idx][0] == lines[0];
    assert lines[..idx + 1][1..] == data + [lines[idx]] && lines[..idx + 1][0] == lines[0];
    NonBlankLinesSnoc(data, lines[idx]);
    SummaryStep(ParseLine(lines[0]), data, lines[idx], kstParse, isoParse);
  }

  /** `summarizeFile`. */
  method SummarizeFile(f: FileEntry, kstParse: string -> Option<int>, isoParse: string -> Option<int>)
    returns (info: Option<FileInfo>)
    ensures info == FileSummary(f, kstParse, isoParse)
  {
    var category := Classify(f.name);
    if IsXlsx(f.name) {
      return Some(FileInfo(f.name, category, 0, None));
    }
    if f.lines.None? {
      return None;
    }
    var recordCount, lastTimestamp := ScanLines(f.lines.value, kstParse, isoParse);
    info := Some(FileInfo(f.name, category, recordCount, lastTimestamp));
  }

  /** A CSV file's latest timestamp is the largest timestamp of its rows. */
  lemma LineTimestampsMembers(header: seq<string>, data: seq<string>,
                              kstParse: string -> Option<int>,
                              isoParse: string -> Option<int>, t: int)
    ensures t in LineTimestamps(header, data, kstParse, isoParse) <==>
      exists i :: 0 <= i < |data| && LineTimestamp(header, data[i], kstParse, isoParse) == Some(t)
  {
    var f := LineStamps(header, kstParse, isoParse);
    MapNotNullMembers(data, f, t);
    assert forall i :: 0 <= i < |data| ==> f(data[i]) == LineTimestamp(header, data[i], kstParse, isoParse);
  }

  // ------------------------------------------------------------ minute gaps

  function LastOf(info: FileInfo): Option<int> {
    info.lastTimestamp
  }

  /** The minutes `computeMinuteGaps` looks at: each file's latest
      timestamp truncated to its Korea-time minute, without repeats, in
      ascending order. */
  function StatusMinutes(infos: seq<FileInfo>, localMinute: int -> int): (r: seq<int>)
    ensures StrictlyIncreasing(r)
  {
    IntLeTotal();
    var stamps := MapNotNull(infos, LastOf);
    var minutes := seq(|stamps|, i requires 0 <= i < |stamps| => localMinute(stamps[i]));
    var r := SortBy(Distinct(minutes), IntLe);
    PermutationNoDuplicates(Distinct(minutes), r);
    SortedDistinctIncreasing(r);
    r
  }

  /** One more consecutive pair adds a gap, and its missing minutes, when
      the two minutes are more than one apart. */
  lemma GapStep(minutes: seq<int>, i: nat)
    requires 1 <= i < |minutes|
    ensures |Gaps(minutes[..i + 1])|
      == |Gaps(minutes[..i])| + (if minutes[i] - minutes[i - 1] > 1 then 1 else 0)
    ensures TotalMissing(Gaps(minutes[..i + 1]))
      == TotalMissing(Gaps(minutes[..i])) + (if minutes[i] - minutes[i - 1] > 1 then minutes[i] - minutes[i - 1] - 1 else 0)
  {
    var prev := minutes[i - 1];
    var cur := minutes[i];
    assert minutes[..i + 1][..i] == minutes[..i];
    var step := if cur - prev > 1 then [Gap(prev, cur, cur - prev - 1)] else [];
    assert Gaps(minutes[..i + 1]) == Gaps(minutes[..i]) + step;
    TotalMissingAppend(Gaps(minutes[..i]), step);
    assert step == [] || step[..0] == [];
  }

  /** The counting loop of `computeMinuteGaps` over its sorted minutes. */
  method CountGaps(minutes: seq<int>) returns (gapCount: nat, missingMinuteCount: int)
    ensures gapCount == |Gaps(minutes)|
    ensures missingMinuteCount == TotalMissing(Gaps(minutes))
  {
    if |minutes| < 2 {
      return 0, 0;
    }
    gapCount := 0;
    missingMinuteCount := 0;
    for i := 1 to |minutes|
      invariant gapCount == |Gaps(minutes[..i])|
      invariant missingMinuteCount == TotalMissing(Gaps(minutes[..i]))
    {
      var diffMin := minutes[i] - minutes[i - 1];
      GapStep(minutes, i);
      if diffMin > 1 {
        gapCount := gapCount + 1;
        missingMinuteCount := missingMinuteCount + (diffMin - 1);
      }
    }
    assert minutes[..|minutes|] == minutes;
  }

  /** `computeMinuteGaps`: fewer than two minutes give no gap; otherwise the
      loop over consecutive minutes counts the gaps and adds up their
      missing minutes, exactly as the analyzer's gap list does. */
  method ComputeMinuteGaps(infos: seq<FileInfo>, localMinute: int -> int)
    returns (gapCount: nat, missingMinuteCount: int)
    ensures gapCount == |Gaps(StatusMinutes(infos, localMinute))|
    ensures missingMinuteCount == TotalMissing(Gaps(StatusMinutes(infos, localMinute)))
    ensures |StatusMinutes(infos, localMinute)| < 2 ==> gapCount == 0 && missingMinuteCount == 0
  {
    var minutes := StatusMinutes(infos, localMinute);
    gapCount, missingMinuteCount := CountGaps(minutes);
  }

  /** Every gap misses at least one minute, so there are never fewer missing
      minutes than gaps. */
  lemma {:induction false} MissingAtLeastGaps(s: seq<int>)
    decreases |s|
    ensures TotalMissing(Gaps(s)) >= |Gaps(s)|
  {
    if |s| >= 2 {
      var a := s[|s| - 2];
      var b := s[|s| - 1];
      var step := if b - a > 1 then [Gap(a, b, b - a - 1)] else [];
      MissingAtLeastGaps(s[..|s| - 1]);
      TotalMissingAppend(Gaps(s[..|s| - 1]), step);
      assert step == [] || step[..0] == [];
    }
  }

  // ---------------------------------------------------- participant status

  /** `ParticipantDataStatus`. */
  datatype Status = Status(participantId: string, fileCount: nat, totalRecordCount: nat,
                           lastTimestamp: Option<int>, gapCount: nat,
                           missingMinuteCount: int, files: seq<FileInfo>)

  predicate EntryNameLe(a: FileEntry, b: FileEntry) {
    StrLe(a.name, b.name)
  }

  lemma EntryNameLeTotal()
    ensures IsTotalPreorder(EntryNameLe)
  {
    forall a: FileEntry, b: FileEntry ensures EntryNameLe(a, b) || EntryNameLe(b, a) {
      StrLeTotal(a.name, b.name);
    }
    forall a: FileEntry, b: FileEntry, c: FileEntry | EntryNameLe(a, b) && EntryNameLe(b, c)
      ensures EntryNameLe(a, c)
    {
      StrLeTrans(a.name, b.name, c.name);
    }
  }

  function Summarizer(kstParse: string -> Option<int>, isoParse: string -> Option<int>)
    : FileEntry -> Option<FileInfo>
  {
    f => FileSummary(f, kstParse, isoParse)
  }

  /** The summaries of the files, in order, or nothing as soon as one file
      fails. */
  function Summaries(files: seq<FileEntry>, kstParse: string -> Option<int>,
                     isoParse: string -> Option<int>): (r: Option<seq<FileInfo>>)
    ensures r.Some? ==> (|r.value| == |files|
      && forall i :: 0 <= i < |files| ==> FileSummary(files[i], kstParse, isoParse) == Some(r.value[i]))
    ensures r.None? <==> exists i :: 0 <= i < |files| && FileSummary(files[i], kstParse, isoParse).None?
  {
    var f := Summarizer(kstParse, isoParse);
    assert forall i :: 0 <= i < |files| ==> f(files[i]) == FileSummary(files[i], kstParse, isoParse);
    MapAll(files, f)
  }

  /** `sumOf { it.recordCount }`. */
  function SumRecords(infos: seq<FileInfo>): nat {
    if infos == [] then 0 else SumRecords(infos[..|infos| - 1]) + infos[|infos| - 1].recordCount
  }

  /** `buildStatus`: the files' summaries in name order, their total record
      count, their latest timestamp and the gaps between their latest
      minutes; nothing when a file cannot be read, which drops the whole
      participant. */
  function BuildStatus(participantId: string, files: seq<FileEntry>, kstParse: string -> Option<int>,
                       isoParse: string -> Option<int>, localMinute: int -> int): (r: Option<Status>)
    ensures r.Some? ==> r.value.participantId == participantId && r.value.fileCount == |files|
  {
    EntryNameLeTotal();
    var sorted := SortBy(files, EntryNameLe);
    assert |sorted| == |multiset(sorted)| == |multiset(files)| == |files|;
    match Summaries(sorted, kstParse, isoParse)
    case None => None
    case Some(infos) =>
      var gaps := Gaps(StatusMinutes(infos, localMinute));
      Some(Status(participantId, |infos|, SumRecords(infos), MaxOf(MapNotNull(infos, LastOf)),
                  |gaps|, TotalMissing(gaps), infos))
  }

  /** A participant is dropped exactly when one of its CSV files cannot be
      read. */
  lemma BuildStatusFails(participantId: string, files: seq<FileEntry>, kstParse: string -> Option<int>,
                         isoParse: string -> Option<int>, localMinute: int -> int)
    ensures BuildStatus(participantId, files, kstParse, isoParse, localMinute).None? <==>
      exists f :: f in files && !IsXlsx(f.name) && f.lines.None?
  {
    EntryNameLeTotal();
    var sorted := SortBy(files, EntryNameLe);
    forall f ensures f in sorted <==> f in files {
      SortByMembers(files, EntryNameLe, f);
    }
  }

  /** The latest timestamp of a list of summaries is the largest one any
      of them has. */
  lemma LatestOfFiles(infos: seq<FileInfo>)
    ensures var last := MaxOf(MapNotNull(infos, LastOf));
      && (last.None? <==> forall info :: info in infos ==> info.lastTimestamp.None?)
      && (last.Some? ==> exists info :: info in infos && info.lastTimestamp == last)
      && (last.Some? ==> forall info :: info in infos && info.lastTimestamp.Some? ==>
            info.lastTimestamp.value <= last.value)
  {
    var stamps := MapNotNull(infos, LastOf);
    forall info | info in infos && info.lastTimestamp.Some?
      ensures info.lastTimestamp.value in stamps
    {
      var i :| 0 <= i < |infos| && infos[i] == info;
      MapNotNullMembers(infos, LastOf, info.lastTimestamp.value);
    }
    if stamps != [] {
      var m := MaxOf(stamps).value;
      MapNotNullMembers(infos, LastOf, m);
      var i :| 0 <= i < |infos| && LastOf(infos[i]) == Some(m);
      assert infos[i] in infos;
    }
  }

  /** A built status lists its files in name order with their summaries,
      adds up their records, keeps the latest of their timestamps and never
      has more gaps than missing minutes. */
  lemma BuildStatusFacts(participantId: string, files: seq<FileEntry>, kstParse: string -> Option<int>,
                         isoParse: string -> Option<int>, localMinute: int -> int)
    requires BuildStatus(participantId, files, kstParse, isoParse, localMinute).Some?
    ensures var st := BuildStatus(participantId, files, kstParse, isoParse, localMinute).value;
      && |st.files| == |files|
      && (forall i, j :: 0 <= i < j < |st.files| ==> StrLe(st.files[i].name, st.files[j].name))
      && (forall info :: info in st.files ==>
            exists f :: f in files && FileSummary(f, kstParse, isoParse) == Some(info))
      && (exists order: seq<FileEntry> ::
            && multiset(order) == multiset(files)
            && |order| == |st.files|
            && forall i :: 0 <= i < |order| ==> FileSummary(order[i], kstParse, isoParse) == Some(st.files[i]))
      && st.totalRecordCount == SumRecords(st.files)
      && st.lastTimestamp == MaxOf(MapNotNull(st.files, LastOf))
      && st.gapCount <= st.missingMinuteCount
  {
    EntryNameLeTotal();
    var sorted := SortBy(files, EntryNameLe);
    var infos := Summaries(sorted, kstParse, isoParse).value;
    forall info | info in infos
      ensures exists f :: f in files && FileSummary(f, kstParse, isoParse) == Some(info)
    {
      var i :| 0 <= i < |infos| && infos[i] == info;
      SortByMembers(files, EntryNameLe, sorted[i]);
    }
    MissingAtLeastGaps(StatusMinutes(infos, localMinute));
  }

  // ------------------------------------------------------------ the listing

  /** Files the walk keeps: regular files not starting with a dot. */
  predicate IsListed(f: FileEntry) {
    f.isFile && !StartsWith(f.name, ".")
  }

  /** The scanner's inputs: `.csv` and `.xlsx` files, ignoring case. */
  predicate IsStatusInput(f: FileEntry) {
    EqualsIgnoreCase(Extension(f.name), "csv") || EqualsIgnoreCase(Extension(f.name), "xlsx")
  }

  function KeyOf(f: FileEntry): string {
    GroupKey(f.name, f.parent)
  }

  function InGroup(key: string): FileEntry -> bool {
    f => KeyOf(f) == key
  }

  /** `groupBy` over a list: the keys in first-seen order. */
  function GroupKeys(files: seq<FileEntry>): (r: seq<string>)
    ensures NoDuplicates(r)
    ensures forall k :: k in r <==> exists f :: f in files && KeyOf(f) == k
  {
    var keys := seq(|files|, i requires 0 <= i < |files| => KeyOf(files[i]));
    var r := Distinct(keys);
    assert forall k :: k in keys <==> exists f :: f in files && KeyOf(f) == k by {
      forall k | k in keys ensures exists f :: f in files && KeyOf(f) == k {
        var i :| 0 <= i < |keys| && keys[i] == k;
        assert files[i] in files;
      }
      forall k | exists f :: f in files && KeyOf(f) == k ensures k in keys {
        var f :| f in files && KeyOf(f) == k;
        var i :| 0 <= i < |files| && files[i] == f;
        assert keys[i] == k;
      }
    }
    r
  }

  /** The files of one group, in listing order, each as often as it is
      listed. */
  function Group(files: seq<FileEntry>, key: string): (r: seq<FileEntry>)
    ensures forall f :: f in r <==> f in files && KeyOf(f) == key
    ensures forall f :: multiset(r)[f] == if KeyOf(f) == key then multiset(files)[f] else 0
  {
    var r := Filter(files, InGroup(key));
    assert forall f :: multiset(r)[f] == if KeyOf(f) == key then multiset(files)[f] else 0 by {
      forall f ensures multiset(r)[f] == if KeyOf(f) == key then multiset(files)[f] else 0 {
        FilterCount(files, InGroup(key), f);
      }
    }
    r
  }

  /** The listing order: one more listed file joins the end of its own
      group and leaves every other group as it was. */
  lemma GroupSnoc(files: seq<FileEntry>, f: FileEntry, key: string)
    ensures Group(files + [f], key) == Group(files, key) + (if KeyOf(f) == key then [f] else [])
  {
    FilterSnoc(files, f, InGroup(key));
  }

  function Builder(files: seq<FileEntry>, kstParse: string -> Option<int>,
                   isoParse: string -> Option<int>, localMinute: int -> int): string -> Option<Status>
  {
    key => BuildStatus(key, Group(files, key), kstParse, isoParse, localMinute)
  }

  predicate IdLe(a: Status, b: Status) {
    StrLe(a.participantId, b.participantId)
  }

  lemma IdLeTotal()
    ensures IsTotalPreorder(IdLe)
  {
    forall a: Status, b: Status ensures IdLe(a, b) || IdLe(b, a) {
      StrLeTotal(a.participantId, b.participantId);
    }
    forall a: Status, b: Status, c: Status | IdLe(a, b) && IdLe(b, c) ensures IdLe(a, c) {
      StrLeTrans(a.participantId, b.participantId, c.participantId);
    }
  }

  /** The statuses of the participants of some input files, sorted by id. */
  function ListStatuses(inputs: seq<FileEntry>, kstParse: string -> Option<int>,
                        isoParse: string -> Option<int>, localMinute: int -> int): (r: seq<Status>)
    ensures SortedBy(r, IdLe)
  {
    IdLeTotal();
    SortBy(MapNotNull(GroupKeys(inputs), Builder(inputs, kstParse, isoParse, localMinute)), IdLe)
  }

  /** Every status the builder makes carries its own key. */
  lemma BuilderKeepsKey(inputs: seq<FileEntry>, kstParse: string -> Option<int>,
                        isoParse: string -> Option<int>, localMinute: int -> int)
    ensures var build := Builder(inputs, kstParse, isoParse, localMinute);
      forall k :: build(k).Some? ==> build(k).value.participantId == k
  {
  }

  /** The scanner's inputs among the walked entries. */
  function StatusInputs(entries: seq<FileEntry>): seq<FileEntry> {
    Filter(Filter(entries, IsListed), IsStatusInput)
  }

  /** `loadStatuses`: nothing for a missing folder or one without files;
      otherwise one status per participant that could be built, sorted by
      participant id. `outputDir` is `None` when the folder is missing or is
      not a directory. */
  function LoadStatuses(outputDir: Option<seq<FileEntry>>, kstParse: string -> Option<int>,
                        isoParse: string -> Option<int>, localMinute: int -> int): (r: seq<Status>)
    ensures outputDir.None? ==> r == []
    ensures SortedBy(r, IdLe)
  {
    IdLeTotal();
    match outputDir
    case None => []
    case Some(entries) =>
      var all := Filter(entries, IsListed);
      if all == [] then []
      else
        ListStatuses(Filter(all, IsStatusInput), kstParse, isoParse, localMinute)
  }

  predicate IdsDistinct(s: seq<Status>) {
    forall i, j :: 0 <= i < j < |s| ==> s[i].participantId != s[j].participantId
  }

  /** Statuses built from distinct keys, each carrying its own key, have
      distinct ids. */
  lemma {:induction false} BuiltIdsDistinct(keys: seq<string>, build: string -> Option<Status>)
    requires NoDuplicates(keys)
    requires forall k :: build(k).Some? ==> build(k).value.participantId == k
    ensures IdsDistinct(MapNotNull(keys, build))
  {
    if keys != [] {
      var n := |keys| - 1;
      var init := keys[..n];
      BuiltIdsDistinct(init, build);
      var earlier := MapNotNull(init, build);
      var last := build(keys[n]);
      if last.Some? {
        forall y | y in earlier ensures y.participantId != keys[n] {
          MapNotNullMembers(init, build, y);
          var i :| 0 <= i < |init| && build(init[i]) == Some(y);
          assert init[i] == keys[i];
        }
        var built := earlier + [last.value];
        assert MapNotNull(keys, build) == built;
        forall i, j | 0 <= i < j < |built| ensures built[i].participantId != built[j].participantId {
          assert built[i] == earlier[i];
          if j < |earlier| {
            assert built[j] == earlier[j];
          } else {
            assert built[i] in earlier;
          }
        }
      } else {
        assert MapNotNull(keys, build) == earlier + [] == earlier;
      }
    }
  }

  /** Sorting statuses with distinct ids keeps the ids distinct. */
  lemma SortedIdsDistinct(built: seq<Status>)
    requires IdsDistinct(built)
    ensures IsTotalPreorder(IdLe)
    ensures IdsDistinct(SortBy(built, IdLe))
  {
    IdLeTotal();
    var r := SortBy(built, IdLe);
    assert NoDuplicates(built);
    PermutationNoDuplicates(built, r);
    forall i, j | 0 <= i < j < |r| ensures r[i].participantId != r[j].participantId {
      assert r[i] in multiset(built) && r[j] in multiset(built);
      var p :| 0 <= p < |built| && built[p] == r[i];
      var q :| 0 <= q < |built| && built[q] == r[j];
      assert r[i] != r[j];
    }
  }

  /** A built status is among the sorted ones exactly when it was built
      from its own key. */
  lemma SortedBuiltMembers(keys: seq<string>, build: string -> Option<Status>, st: Status)
    requires forall k :: build(k).Some? ==> build(k).value.participantId == k
    ensures IsTotalPreorder(IdLe)
    ensures st in SortBy(MapNotNull(keys, build), IdLe) <==>
      st.participantId in keys && build(st.participantId) == Some(st)
  {
    IdLeTotal();
    var built := MapNotNull(keys, build);
    SortByMembers(built, IdLe, st);
    MapNotNullMembers(keys, build, st);
    if st.participantId in keys && build(st.participantId) == Some(st) {
      var i :| 0 <= i < |keys| && keys[i] == st.participantId;
      assert build(keys[i]) == Some(st);
    }
  }

  /** The listed statuses have distinct participant ids. */
  lemma ListStatusesDistinct(inputs: seq<FileEntry>, kstParse: string -> Option<int>,
                             isoParse: string -> Option<int>, localMinute: int -> int)
    ensures IdsDistinct(ListStatuses(inputs, kstParse, isoParse, localMinute))
  {
    var build := Builder(inputs, kstParse, isoParse, localMinute);
    BuilderKeepsKey(inputs, kstParse, isoParse, localMinute);
    BuiltIdsDistinct(GroupKeys(inputs), build);
    SortedIdsDistinct(MapNotNull(GroupKeys(inputs), build));
  }

  /** A status is listed exactly when some input file belongs to its
      participant and that participant's files could all be read; it is the
      status built from them. */
  lemma ListStatusesMembers(inputs: seq<FileEntry>, kstParse: string -> Option<int>,
                            isoParse: string -> Option<int>, localMinute: int -> int, st: Status)
    ensures st in ListStatuses(inputs, kstParse, isoParse, localMinute) <==>
      (exists f :: f in inputs && KeyOf(f) == st.participantId)
      && BuildStatus(st.participantId, Group(inputs, st.participantId), kstParse, isoParse, localMinute)
           == Some(st)
  {
    var build := Builder(inputs, kstParse, isoParse, localMinute);
    BuilderKeepsKey(inputs, kstParse, isoParse, localMinute);
    SortedBuiltMembers(GroupKeys(inputs), build, st);
  }
}
