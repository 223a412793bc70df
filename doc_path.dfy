/** Firestore document paths as the exporter and the deleter accept them
    (`normalizeFirestoreDocumentPath`, written out identically in both):
    the input is trimmed, leading slashes are cut, it is split on `/`,
    blank segments are dropped, and the rest must alternate collection and
    document, so an even number of at least two segments. */
module DocPath {
  import opened Wrappers
  import opened Text

  const EMPTY_PATH: string := "docRoot가 비어 있어요."
  const NOT_A_DOCUMENT_HEAD: string := "docRoot는 문서 경로여야 해요(컬렉션/문서가 번갈아야 합니다).\n입력: '"
  const NOT_A_DOCUMENT_TAIL: string := "'\n예) studies/nursing-study-001/participants/<participantId>"

  /** The message for a path that is not a document path, echoing the
      input as given (before trimming). */
  function NotADocument(input: string): string {
    NOT_A_DOCUMENT_HEAD + input + NOT_A_DOCUMENT_TAIL
  }

  predicate NotBlank(s: string) {
    !IsBlank(s)
  }

  /** The input trimmed and without its leading slashes. */
  function Stripped(input: string): string {
    TrimStartChar(Trim(input), '/')
  }

  /** `split('/').filter { it.isNotBlank() }`: the non-blank pieces, none of
      which holds a slash. */
  function Segments(s: string): (r: seq<string>)
    ensures forall k :: 0 <= k < |r| ==> !IsBlank(r[k]) && '/' !in r[k]
  {
    SplitCharPieces(s, '/');
    var r := Filter(Split(s, "/"), NotBlank);
    assert forall k :: 0 <= k < |r| ==> r[k] in Split(s, "/") && NotBlank(r[k]);
    r
  }

  /** Blank text has no non-blank segment. */
  lemma BlankHasNoSegments(s: string)
    requires IsBlank(s)
    ensures Segments(s) == []
  {
    var pieces := Split(s, "/");
    SplitPiecesChars(s, "/");
    forall k | 0 <= k < |pieces| ensures IsBlank(pieces[k]) {
      forall i | 0 <= i < |pieces[k]| ensures IsWhitespace(pieces[k][i]) {
        assert pieces[k][i] in s;
      }
    }
    FilterNone(pieces, NotBlank);
  }

  /** `normalizeFirestoreDocumentPath`. The explicit blank check is subsumed
      by the segment count: the path is accepted exactly when its non-blank
      segments are an even number of at least two, and it is then those
      segments joined by `/`. */
  function NormalizeDocPath(input: string): (r: Result<string, string>)
    ensures r.Ok? <==> (|Segments(Stripped(input))| >= 2 && |Segments(Stripped(input))| % 2 == 0)
    ensures r.Ok? ==> r.value == Join(Segments(Stripped(input)), "/")
    ensures r.Err? ==> r.error == (if IsBlank(Stripped(input)) then EMPTY_PATH else NotADocument(input))
  {
    FromStripped(input, Stripped(input))
  }

  /** The checks after trimming and cutting leading slashes. */
  function FromStripped(input: string, x: string): (r: Result<string, string>)
    ensures r.Ok? <==> (|Segments(x)| >= 2 && |Segments(x)| % 2 == 0)
    ensures r.Ok? ==> r.value == Join(Segments(x), "/")
    ensures r.Err? ==> r.error == (if IsBlank(x) then EMPTY_PATH else NotADocument(input))
  {
    if IsBlank(x) then
      BlankHasNoSegments(x);
      Err(EMPTY_PATH)
    else
      var segments := Segments(x);
      if |segments| < 2 || |segments| % 2 != 0 then Err(NotADocument(input))
      else Ok(Join(segments, "/"))
  }

  /** Joining slash-free pieces with `/` and splitting again gives the
      pieces back. */
  lemma {:induction false} SplitJoin(parts: seq<string>)
    requires |parts| >= 1
    requires forall k :: 0 <= k < |parts| ==> '/' !in parts[k]
    decreases |parts|
    ensures Split(Join(parts, "/"), "/") == parts
  {
    if |parts| == 1 {
      SplitAbsent(parts[0], '/');
    } else {
      SplitJoin(parts[1..]);
      assert Join(parts, "/") == parts[0] + "/" + Join(parts[1..], "/");
      SplitCons(parts[0], '/', Join(parts[1..], "/"));
      assert parts == [parts[0]] + parts[1..];
    }
  }

  /** The shape of an accepted path: split on `/` it gives its segments, an
      even number of at least two, none of them blank, and it does not
      start with `/`. */
  lemma NormalizedShape(input: string)
    requires NormalizeDocPath(input).Ok?
    ensures var p := NormalizeDocPath(input).value;
      var pieces := Split(p, "/");
      && pieces == Segments(Stripped(input))
      && |pieces| >= 2 && |pieces| % 2 == 0
      && (forall k :: 0 <= k < |pieces| ==> !IsBlank(pieces[k]))
      && p != [] && p[0] != '/'
  {
    var segments := Segments(Stripped(input));
    SplitJoin(segments);
    var p := Join(segments, "/");
    assert p == segments[0] + "/" + Join(segments[1..], "/");
    assert segments[0] != [] && p[0] == segments[0][0];
    assert segments[0][0] in segments[0];
  }

  /** A path that the normalizer produced and whose ends are not whitespace
      is accepted again as it is. */
  lemma NormalizeIdempotent(input: string)
    requires NormalizeDocPath(input).Ok?
    requires var p := NormalizeDocPath(input).value;
      !IsWhitespace(p[0]) && !IsWhitespace(p[|p| - 1])
    ensures var p := NormalizeDocPath(input).value;
      NormalizeDocPath(p) == Ok(p)
  {
    var segments := Segments(Stripped(input));
    var p := Join(segments, "/");
    NormalizedShape(input);
    StrippedUnchanged(p);
    NormalizeJoined(p, segments);
  }

  /** Text that starts with neither whitespace nor `/` and does not end in
      whitespace is already stripped. */
  lemma StrippedUnchanged(p: string)
    requires p != [] && !IsWhitespace(p[0]) && !IsWhitespace(p[|p| - 1]) && p[0] != '/'
    ensures Stripped(p) == p
  {
    TrimUnchanged(p);
  }

  /** A stripped input that is slash-free, non-blank segments joined by `/`,
      an even number of at least two, is accepted as exactly that text. */
  lemma NormalizeJoined(input: string, parts: seq<string>)
    requires Stripped(input) == Join(parts, "/")
    requires DocumentSegments(parts)
    ensures NormalizeDocPath(input) == Ok(Join(parts, "/"))
  {
    FromStrippedJoined(input, parts);
  }

  /** The segments of slash-free pieces joined by `/` are the non-blank
      pieces. */
  lemma SegmentsOfJoin(parts: seq<string>)
    requires |parts| >= 1 && forall k :: 0 <= k < |parts| ==> '/' !in parts[k]
    ensures Segments(Join(parts, "/")) == Filter(parts, NotBlank)
  {
    SplitJoin(parts);
  }

  /** Segments that make a document path: an even number of at least two,
      none blank and none holding a slash. */
  predicate DocumentSegments(parts: seq<string>) {
    && |parts| >= 2 && |parts| % 2 == 0
    && forall k :: 0 <= k < |parts| ==> '/' !in parts[k] && !IsBlank(parts[k])
  }

  lemma FromStrippedJoined(input: string, parts: seq<string>)
    requires DocumentSegments(parts)
    ensures FromStripped(input, Join(parts, "/")) == Ok(Join(parts, "/"))
  {
    JoinedSegments(parts);
  }

  /** The segments of slash-free, non-blank pieces joined by `/` are those
      pieces. */
  lemma JoinedSegments(parts: seq<string>)
    requires |parts| >= 1
    requires forall k :: 0 <= k < |parts| ==> '/' !in parts[k] && !IsBlank(parts[k])
    ensures Segments(Join(parts, "/")) == parts
  {
    SplitJoin(parts);
    FilterAll(parts, NotBlank);
  }

  /** A stripped input made of two slash-free, non-blank segments is a
      document path: those two segments. */
  lemma NormalizeTwoSegments(input: string, a: string, b: string)
    requires Stripped(input) == a + "/" + b
    requires '/' !in a && '/' !in b && !IsBlank(a) && !IsBlank(b)
    ensures NormalizeDocPath(input) == Ok(a + "/" + b)
  {
    assert Join([a, b], "/") == a + "/" + b;
    NormalizeJoined(input, [a, b]);
  }

  /** A space at the head of the first segment survives one pass and is
      trimmed by the next, so normalizing is not idempotent in general:
      `/ a/b` becomes ` a/b`, which becomes `a/b`. */
  lemma NormalizeKeepsInnerSpace(a: string, b: string)
    requires a != [] && b != [] && '/' !in a && '/' !in b
    requires !IsWhitespace(a[0]) && !IsWhitespace(b[|b| - 1])
    ensures NormalizeDocPath("/" + (" " + a + "/" + b)) == Ok(" " + a + "/" + b)
    ensures NormalizeDocPath(" " + (a + "/" + b)) == Ok(a + "/" + b)
  {
    FirstPassKeepsSpace(a, b);
    SecondPassTrims(a, b);
  }

  lemma FirstPassKeepsSpace(a: string, b: string)
    requires a != [] && b != [] && '/' !in a && '/' !in b
    requires !IsWhitespace(a[0]) && !IsWhitespace(b[|b| - 1])
    ensures NormalizeDocPath("/" + (" " + a + "/" + b)) == Ok(" " + a + "/" + b)
  {
    var t := " " + a + "/" + b;
    assert t[0] == ' ' && t[|t| - 1] == b[|b| - 1];
    StrippedSlashed(t);
    SpacedSegment(a);
    NormalizeTwoSegments("/" + t, " " + a, b);
  }

  /** One `/` in front of text that is otherwise already stripped is cut. */
  lemma StrippedSlashed(t: string)
    requires t != [] && t[0] != '/' && !IsWhitespace(t[|t| - 1])
    ensures Stripped("/" + t) == t
  {
    var s := "/" + t;
    assert s[1] == t[0] && s[|s| - 1] == t[|t| - 1];
    StrippedOneSlash(s);
    assert s[1..] == t;
  }

  /** A segment with a space in front is still a non-blank segment. */
  lemma SpacedSegment(a: string)
    requires a != [] && '/' !in a && !IsWhitespace(a[0])
    ensures '/' !in " " + a && !IsBlank(" " + a)
  {
    assert (" " + a)[1] == a[0];
  }

  lemma SecondPassTrims(a: string, b: string)
    requires a != [] && b != [] && '/' !in a && '/' !in b
    requires !IsWhitespace(a[0]) && !IsWhitespace(b[|b| - 1])
    ensures NormalizeDocPath(" " + (a + "/" + b)) == Ok(a + "/" + b)
  {
    var x := a + "/" + b;
    assert x[0] == a[0] && x[|x| - 1] == b[|b| - 1];
    StrippedAfterSpace(x);
    assert a[0] in a;
    NormalizeTwoSegments(" " + x, a, b);
  }

  /** Text that is trimmed already and starts with exactly one `/` loses
      just that slash. */
  lemma StrippedOneSlash(s: string)
    requires |s| >= 2 && s[0] == '/' && s[1] != '/' && !IsWhitespace(s[|s| - 1])
    ensures Stripped(s) == s[1..]
  {
    TrimUnchanged(s);
    var drop := IsChar('/');
    assert drop(s[0]) && !drop(s[1..][0]);
    assert TrimStartBy(s[1..], drop) == s[1..];
    assert TrimStartBy(s, drop) == TrimStartBy(s[1..], drop);
  }

  /** A space in front of text that is otherwise already stripped is cut. */
  lemma StrippedAfterSpace(x: string)
    requires x != [] && !IsWhitespace(x[0]) && x[0] != '/' && !IsWhitespace(x[|x| - 1])
    ensures Stripped(" " + x) == x
  {
    TrimByPadded(" ", x, [], IsWhitespace);
    assert " " + x + [] == " " + x;
    assert !IsChar('/')(x[0]);
  }
}
