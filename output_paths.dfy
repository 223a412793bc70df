/** Where the app writes a participant's files: `output/<participant>/`,
    with file names made from a prefix alone and never overwriting what is
    already there (`ParticipantOutputPaths`). A directory is the list of
    its path segments; the directory's contents are the set of names it
    already holds. */
module OutputPaths {
  import opened Wrappers
  import opened Text

  const UNKNOWN: string := "unknown"
  const CSV_DEFAULT: string := "export"
  const XLSX_DEFAULT: string := "report"

  /** The characters `[\\/:*?"<>|]` that are unsafe in a file or folder
      name on Windows or macOS. */
  predicate IsUnsafe(c: char) {
    c == '\\' || c == '/' || c == ':' || c == '*' || c == '?' || c == '"' || c == '<' || c == '>' || c == '|'
  }

  /** Every unsafe character turned into `_`, one for one; the others are
      kept. */
  function ReplaceUnsafe(t: string): (r: string)
    ensures |r| == |t|
    ensures forall i :: 0 <= i < |r| ==> !IsUnsafe(r[i])
    ensures forall i :: 0 <= i < |r| ==> !IsUnsafe(t[i]) ==> r[i] == t[i]
  {
    MapBad(t, IsUnsafe, '_')
  }

  /** `sanitizeSegment`: the trimmed text with its unsafe characters
      replaced. */
  function SanitizeSegment(raw: string): (r: string)
    ensures var t := Trim(raw); |r| == |t| && forall i :: 0 <= i < |r| ==> !IsUnsafe(r[i])
  {
    ReplaceUnsafe(Trim(raw))
  }

  /** Text with no whitespace at its ends and no unsafe character is left
      as it is. */
  lemma SanitizeClean(s: string)
    requires s != [] && !IsWhitespace(s[0]) && !IsWhitespace(s[|s| - 1])
    requires forall i :: 0 <= i < |s| ==> !IsUnsafe(s[i])
    ensures SanitizeSegment(s) == s
  {
    TrimUnchanged(s);
  }

  /** A sanitized name is sanitized already: its ends are kept or became
      `_`, neither of which is whitespace. */
  lemma SanitizeIdempotent(raw: string)
    ensures SanitizeSegment(SanitizeSegment(raw)) == SanitizeSegment(raw)
  {
    var t := Trim(raw);
    var r := ReplaceUnsafe(t);
    if r != [] {
      TrimmedEnds(raw);
      ReplaceUnsafeEnds(t);
      SanitizeClean(r);
    } else {
      assert Trim(r) == [];
    }
  }

  /** Replacing keeps ends that are not whitespace so: `_` is not
      whitespace either. */
  lemma ReplaceUnsafeEnds(t: string)
    requires t != [] && !IsWhitespace(t[0]) && !IsWhitespace(t[|t| - 1])
    ensures var r := ReplaceUnsafe(t); !IsWhitespace(r[0]) && !IsWhitespace(r[|r| - 1])
  {
  }

  /** The ends of a trimmed text that is not empty are not whitespace. */
  lemma TrimmedEnds(s: string)
    requires Trim(s) != []
    ensures !IsWhitespace(Trim(s)[0]) && !IsWhitespace(Trim(s)[|Trim(s)| - 1])
  {
    TrimBySlice(s, IsWhitespace);
  }

  /** `ifBlank { default }`. */
  function IfBlank(s: string, default: string): (r: string)
    ensures IsBlank(s) ==> r == default
    ensures !IsBlank(s) ==> r == s
  {
    if IsBlank(s) then default else s
  }

  /** The folder name of `participantDir`: the trimmed id, `unknown` when
      there is none or it is blank, sanitized. */
  function ParticipantDirName(participantId: Option<string>): (r: string)
    ensures participantId.None? || IsBlank(participantId.value) ==> r == SanitizeSegment(UNKNOWN)
    ensures participantId.Some? && !IsBlank(participantId.value) ==> r == SanitizeSegment(Trim(participantId.value))
  {
    var id := IfBlank(match participantId case Some(p) => Trim(p) case None => "", UNKNOWN);
    BlankIffTrimEmpty(participantId.GetOr(""));
    TrimmedNotBlankUnlessEmpty(participantId.GetOr(""));
    SanitizeSegment(id)
  }

  /** `unknown` is a safe name as it stands. */
  lemma UnknownIsSafe()
    ensures SanitizeSegment(UNKNOWN) == UNKNOWN
  {
    SanitizeClean(UNKNOWN);
  }

  /** Without a usable id the folder is `unknown`; with one it is never
      empty and holds no unsafe character. */
  lemma ParticipantDirNameShape(participantId: Option<string>)
    ensures participantId.None? || IsBlank(participantId.value) ==> ParticipantDirName(participantId) == UNKNOWN
    ensures var r := ParticipantDirName(participantId);
      r != [] && forall i :: 0 <= i < |r| ==> !IsUnsafe(r[i])
  {
    UnknownIsSafe();
    if participantId.Some? && !IsBlank(participantId.value) {
      BlankIffTrimEmpty(participantId.value);
    }
  }

  /** The names `.` and `..`, which a file system reads as the folder
      itself and its parent rather than as an entry of the folder. */
  predicate IsDotName(name: string) {
    name == "." || name == ".."
  }

  /** The folder `File(dir, name)` denotes once the file system resolves
      it: `.` is `dir` itself, `..` its parent (the root is its own
      parent), and any other name an entry of `dir`. `dir` is taken to be
      resolved already. */
  function ChildPath(dir: seq<string>, name: string): (r: seq<string>)
    ensures |r| <= |dir| + 1
  {
    if name == "." then dir
    else if name == ".." then (if dir == [] then [] else dir[..|dir| - 1])
    else dir + [name]
  }

  /** The resolved path lies strictly inside `dir` exactly when the name
      is not `.` or `..`; those two give `dir` or a folder above it. */
  lemma ChildPathInside(dir: seq<string>, name: string)
    ensures dir < ChildPath(dir, name) <==> !IsDotName(name)
    ensures IsDotName(name) ==> ChildPath(dir, name) <= dir
    ensures !IsDotName(name) ==> ChildPath(dir, name) == dir + [name]
  {
  }

  /** `participantDir`: `File(baseOutputDir, name)` for the participant's
      folder name, resolved as the file system does (created if missing,
      which this model leaves out). */
  function ParticipantDir(baseOutputDir: seq<string>, participantId: Option<string>): (r: seq<string>)
    ensures var name := ParticipantDirName(participantId);
      && (!IsDotName(name) ==> |r| == |baseOutputDir| + 1 && r[..|baseOutputDir|] == baseOutputDir && r[|baseOutputDir|] == name)
      && (name == "." ==> r == baseOutputDir)
      && (name == ".." ==> r == if baseOutputDir == [] then [] else baseOutputDir[..|baseOutputDir| - 1])
  {
    ChildPath(baseOutputDir, ParticipantDirName(participantId))
  }

  /** An id of `.` or `..` does not give a folder of its own: the files go
      into the output folder itself, or into the folder above it. */
  lemma DotIdsLeaveParticipantFolder(baseOutputDir: seq<string>, id: string)
    requires IsDotName(id)
    ensures ParticipantDir(baseOutputDir, Some(id)) == ChildPath(baseOutputDir, id)
    ensures ParticipantDir(baseOutputDir, Some(id)) <= baseOutputDir
  {
    assert id[0] == '.' && id[|id| - 1] == '.';
    assert forall i :: 0 <= i < |id| ==> id[i] == '.';
    TrimUnchanged(id);
    SanitizeClean(id);
  }

  /** The file prefix of `buildCsvFile` and `buildXlsxFile`: sanitized,
      and the given default when nothing is left. */
  function FilePrefix(filePrefix: string, default: string): (r: string)
    ensures IsBlank(SanitizeSegment(filePrefix)) ==> r == default
    ensures !IsBlank(SanitizeSegment(filePrefix)) ==> r == SanitizeSegment(filePrefix)
  {
    IfBlank(SanitizeSegment(filePrefix), default)
  }

  /** A prefix that is not blank before sanitizing stays a non-empty safe
      name; a blank one falls back to the default. */
  lemma FilePrefixShape(filePrefix: string, default: string)
    ensures IsBlank(filePrefix) ==> FilePrefix(filePrefix, default) == default
    ensures !IsBlank(filePrefix) ==> FilePrefix(filePrefix, default) == SanitizeSegment(filePrefix) != []
  {
    BlankIffTrimEmpty(filePrefix);
    if !IsBlank(filePrefix) {
      TrimmedEnds(filePrefix);
      ReplaceUnsafeEnds(Trim(filePrefix));
    }
  }

  // ------------------------------------------------------------ uniqueFile

  /** `"$baseName.$extension"`. */
  function Plain(base: string, ext: string): string {
    base + "." + ext
  }

  /** `"$baseName ($n).$extension"`. */
  function Numbered(base: string, n: nat, ext: string): string {
    base + " (" + NatToString(n) + ")." + ext
  }

  /** The numbered names from 2 up to `n - 1`. */
  function NumberedBelow(base: string, n: nat, ext: string): set<string>
    decreases n
  {
    if n <= 2 then {} else NumberedBelow(base, n - 1, ext) + {Numbered(base, n - 1, ext)}
  }

  lemma {:induction false} NumberedBelowMembers(base: string, n: nat, ext: string, x: string)
    decreases n
    ensures x in NumberedBelow(base, n, ext) <==> exists m :: 2 <= m < n && x == Numbered(base, m, ext)
  {
    if n > 2 {
      NumberedBelowMembers(base, n - 1, ext, x);
    }
  }

  /** The length of the run of digits `s` starts with. */
  function DigitRun(s: string): (r: nat)
    ensures r <= |s|
  {
    if s == [] || !IsDigit(s[0]) then 0 else 1 + DigitRun(s[1..])
  }

  lemma {:induction false} DigitRunBeforeParen(x: string, u: string)
    requires AllDigits(x)
    ensures DigitRun(x + ")" + u) == |x|
  {
    if x != [] {
      assert (x + ")" + u)[1..] == x[1..] + ")" + u;
      DigitRunBeforeParen(x[1..], u);
    }
  }

  /** A number is followed by `)`, which is not a digit: distinct numbers
      give distinct names. */
  lemma NumberedInjective(base: string, m: nat, n: nat, ext: string)
    requires Numbered(base, m, ext) == Numbered(base, n, ext)
    ensures m == n
  {
    var x, y := NatToString(m), NatToString(n);
    var a := x + ")" + ("." + ext);
    var b := y + ")" + ("." + ext);
    assert a == Numbered(base, m, ext)[|base + " ("|..];
    assert b == Numbered(base, n, ext)[|base + " ("|..];
    DigitRunBeforeParen(x, "." + ext);
    DigitRunBeforeParen(y, "." + ext);
    assert x == a[..|x|] && y == b[..|y|];
    NatToStringInjective(m, n);
  }

  /** There are `n - 2` numbered names below `n`. */
  lemma {:induction false} NumberedBelowSize(base: string, n: nat, ext: string)
    requires n >= 2
    decreases n
    ensures |NumberedBelow(base, n, ext)| == n - 2
  {
    if n > 2 {
      NumberedBelowSize(base, n - 1, ext);
      var x := Numbered(base, n - 1, ext);
      NumberedBelowMembers(base, n - 1, ext, x);
      if x in NumberedBelow(base, n - 1, ext) {
        var m :| 2 <= m < n - 1 && x == Numbered(base, m, ext);
        NumberedInjective(base, m, n - 1, ext);
      }
    }
  }

  lemma SubsetSize(a: set<string>, b: set<string>)
    requires a <= b
    ensures |a| <= |b|
  {
    assert b == a + (b - a);
  }

  /** The name `uniqueFile` picks: not held by the directory, the plain
      name when that is free, and otherwise a numbered one with every
      smaller number taken. */
  ghost predicate FreeName(existing: set<string>, base: string, ext: string, name: string) {
    && name !in existing
    && (Plain(base, ext) !in existing ==> name == Plain(base, ext))
    && (Plain(base, ext) in existing ==>
          exists n: nat :: n >= 2 && name == Numbered(base, n, ext) && NumberedBelow(base, n, ext) <= existing)
  }

  /** `uniqueFile`: `<base>.<ext>` when that name is free, otherwise
      `<base> (n).<ext>` for the smallest n from 2 on that is free. The
      name returned is never one the directory holds, so nothing is
      overwritten. The loop ends because the directory holds finitely many
      names. */
  method UniqueFile(existing: set<string>, base: string, ext: string) returns (name: string)
    ensures name !in existing
    ensures Plain(base, ext) !in existing ==> name == Plain(base, ext)
    ensures Plain(base, ext) in existing ==>
      exists n: nat :: n >= 2 && name == Numbered(base, n, ext) && NumberedBelow(base, n, ext) <= existing
    ensures FreeName(existing, base, ext, name)
  {
    var initial := Plain(base, ext);
    if initial !in existing {
      return initial;
    }
    var n: nat := 2;
    while true
      invariant n >= 2 && NumberedBelow(base, n, ext) <= existing
      decreases |existing| + 2 - n
    {
      NumberedBelowSize(base, n, ext);
      SubsetSize(NumberedBelow(base, n, ext), existing);
      var candidate := Numbered(base, n, ext);
      if candidate !in existing {
        return candidate;
      }
      n := n + 1;
    }
  }

  /** Every smaller numbered name is taken: no name before the chosen one
      was free. */
  lemma NumberedBelowTaken(base: string, n: nat, ext: string, existing: set<string>, m: nat)
    requires NumberedBelow(base, n, ext) <= existing && 2 <= m < n
    ensures Numbered(base, m, ext) in existing
  {
    NumberedBelowMembers(base, n, ext, Numbered(base, m, ext));
  }

  /** `buildCsvFile` and `buildXlsxFile`: in the participant's folder, a
      free name made of the prefix (or the default) and the extension. */
  method BuildFile(baseOutputDir: seq<string>, participantId: Option<string>, filePrefix: string, default: string,
                   ext: string, existing: set<string>)
    returns (path: seq<string>)
    ensures |path| >= 1 && path[..|path| - 1] == ParticipantDir(baseOutputDir, participantId)
    ensures FreeName(existing, FilePrefix(filePrefix, default), ext, path[|path| - 1])
  {
    var dir := ParticipantDir(baseOutputDir, participantId);
    var name := UniqueFile(existing, FilePrefix(filePrefix, default), ext);
    path := dir + [name];
  }

  /** `buildCsvFile`: `export` is the default prefix, `csv` the extension. */
  method BuildCsvFile(baseOutputDir: seq<string>, participantId: Option<string>, filePrefix: string, existing: set<string>)
    returns (path: seq<string>)
    ensures |path| >= 1 && path[..|path| - 1] == ParticipantDir(baseOutputDir, participantId)
    ensures FreeName(existing, FilePrefix(filePrefix, CSV_DEFAULT), "csv", path[|path| - 1])
  {
    path := BuildFile(baseOutputDir, participantId, filePrefix, CSV_DEFAULT, "csv", existing);
  }

  /** `buildXlsxFile`: `report` is the default prefix, `xlsx` the
      extension. */
  method BuildXlsxFile(baseOutputDir: seq<string>, participantId: Option<string>, filePrefix: string, existing: set<string>)
    returns (path: seq<string>)
    ensures |path| >= 1 && path[..|path| - 1] == ParticipantDir(baseOutputDir, participantId)
    ensures FreeName(existing, FilePrefix(filePrefix, XLSX_DEFAULT), "xlsx", path[|path| - 1])
  {
    path := BuildFile(baseOutputDir, participantId, filePrefix, XLSX_DEFAULT, "xlsx", existing);
  }
}
