/** The persisted researcher configuration (`AppConfig`): the participant,
    an optional Firestore document root that overrides the default study
    path, the date range of the export, page size, ordering field and the
    batch size, with their defaults. */
module Config {
  import opened Wrappers
  import opened Text
  import opened DocPath

  /** Export bounds in UTC epoch milliseconds; either may be absent. */
  datatype DateRange = DateRange(startMillisUtc: Option<int>, endMillisUtc: Option<int>)

  /** `DateRange()`: no bound at all. */
  const NO_RANGE: DateRange := DateRange(None, None)

  /** The instant `m` lies in the range: not before an inclusive start and
      before an exclusive end. */
  predicate Admits(range: DateRange, m: int) {
    && (range.startMillisUtc.None? || range.startMillisUtc.value <= m)
    && (range.endMillisUtc.None? || m < range.endMillisUtc.value)
  }

  const DEFAULT_LIMIT: int := 500
  const DEFAULT_ORDER_BY_FIELD: string := "__name__"
  const DEFAULT_MAX_BATCH: int := 1000

  /** The segments of the study's participants collection. */
  const STUDY_SEGMENTS: seq<string> := ["studies", "nursing-study-001", "participants"]

  /** The prefix used when no document root is given,
      `/studies/nursing-study-001/participants/`. */
  const STUDY_PARTICIPANTS: string := "/" + Join(STUDY_SEGMENTS, "/") + "/"

  datatype AppConfig = AppConfig(
    participantId: string,
    docRoot: Option<string>,
    dateRange: DateRange,
    limit: int,
    orderByField: string,
    maxBatch: int)

  /** `AppConfig()` with every default. */
  const DEFAULT_CONFIG: AppConfig :=
    AppConfig("", None, NO_RANGE, DEFAULT_LIMIT, DEFAULT_ORDER_BY_FIELD, DEFAULT_MAX_BATCH)

  /** The default order field is trimmed, non-blank text. */
  lemma DefaultOrderFieldTrimmed()
    ensures Trim(DEFAULT_ORDER_BY_FIELD) == DEFAULT_ORDER_BY_FIELD && !IsBlank(DEFAULT_ORDER_BY_FIELD)
  {
    var d := DEFAULT_ORDER_BY_FIELD;
    assert !IsWhitespace(d[0]) && !IsWhitespace(d[|d| - 1]);
    TrimUnchanged(d);
  }

  /** The override's text, or nothing for a missing override. */
  function OverrideText(c: AppConfig): string {
    if c.docRoot.Some? then Trim(c.docRoot.value) else ""
  }

  /** `resolvedDocRoot`: a non-blank override, trimmed, wins; otherwise the
      default study path followed by the trimmed participant id. */
  function ResolvedDocRoot(c: AppConfig): (r: string)
    ensures !IsBlank(OverrideText(c)) ==> r == OverrideText(c) && !IsBlank(r)
    ensures IsBlank(OverrideText(c)) ==> r == STUDY_PARTICIPANTS + Trim(c.participantId)
  {
    var trimmed := OverrideText(c);
    if !IsBlank(trimmed) then trimmed else STUDY_PARTICIPANTS + Trim(c.participantId)
  }

  /** Without an override, the default study path is a document path exactly
      when a participant id is given: a blank id leaves three segments,
      which the normalizer rejects, and an id without `/` gives the
      participant document, four segments. */
  lemma ResolvedDefaultRootNormalizes(c: AppConfig)
    requires IsBlank(OverrideText(c))
    ensures IsBlank(c.participantId) ==> NormalizeDocPath(ResolvedDocRoot(c)).Err?
    ensures !IsBlank(c.participantId) && '/' !in c.participantId ==>
      NormalizeDocPath(ResolvedDocRoot(c)) == Ok(Join(STUDY_SEGMENTS + [Trim(c.participantId)], "/"))
  {
    var p := c.participantId;
    assert ResolvedDocRoot(c) == STUDY_PARTICIPANTS + Trim(p);
    if IsBlank(p) {
      BlankDefaultRejected(p);
    } else if '/' !in p {
      GivenIdAccepted(p);
    }
  }

  lemma BlankDefaultRejected(p: string)
    requires IsBlank(p)
    ensures NormalizeDocPath(STUDY_PARTICIPANTS + Trim(p)).Err?
  {
    BlankIffTrimEmpty(p);
    BlankIdRejected(Trim(p));
  }

  lemma GivenIdAccepted(p: string)
    requires !IsBlank(p) && '/' !in p
    ensures NormalizeDocPath(STUDY_PARTICIPANTS + Trim(p)) == Ok(Join(STUDY_SEGMENTS + [Trim(p)], "/"))
  {
    var id := Trim(p);
    TrimmedNotBlankUnlessEmpty(p);
    TrimBySlice(p, IsWhitespace);
    assert '/' !in id;
    IdAccepted(id);
  }

  /** The default study path followed by `id`, without its leading `/`,
      is the segments with `id` joined by `/`. */
  lemma StudyRootText(id: string)
    ensures |STUDY_PARTICIPANTS + id| >= 2 && (STUDY_PARTICIPANTS + id)[0] == '/'
    ensures (STUDY_PARTICIPANTS + id)[1] == 's'
    ensures (STUDY_PARTICIPANTS + id)[1..] == Join(STUDY_SEGMENTS + [id], "/")
  {
    JoinSnoc(STUDY_SEGMENTS, id, "/");
    var j := Join(STUDY_SEGMENTS, "/");
    assert j == "studies" + "/" + Join(STUDY_SEGMENTS[1..], "/");
    assert j[0] == 's';
    assert STUDY_PARTICIPANTS + id == "/" + (j + "/" + id);
  }

  lemma StudySegmentsNotBlank()
    ensures forall k :: 0 <= k < |STUDY_SEGMENTS| ==> '/' !in STUDY_SEGMENTS[k] && !IsBlank(STUDY_SEGMENTS[k])
  {
    assert !IsWhitespace("studies"[0]);
    assert !IsWhitespace("nursing-study-001"[0]);
    assert !IsWhitespace("participants"[0]);
  }

  /** A trimmed, non-blank id without `/` completes the participant document. */
  lemma IdAccepted(id: string)
    requires id != [] && !IsWhitespace(id[|id| - 1]) && '/' !in id && !IsBlank(id)
    ensures NormalizeDocPath(STUDY_PARTICIPANTS + id) == Ok(Join(STUDY_SEGMENTS + [id], "/"))
  {
    StrippedRoot(id);
    IdSegments(id);
    NormalizeJoined(STUDY_PARTICIPANTS + id, STUDY_SEGMENTS + [id]);
  }

  lemma StrippedRoot(id: string)
    requires id == [] || !IsWhitespace(id[|id| - 1])
    ensures Stripped(STUDY_PARTICIPANTS + id) == Join(STUDY_SEGMENTS + [id], "/")
  {
    var r := STUDY_PARTICIPANTS + id;
    StudyRootText(id);
    assert r[|r| - 1] == if id == [] then '/' else id[|id| - 1];
    StrippedOneSlash(r);
  }

  lemma IdSegments(id: string)
    requires '/' !in id && !IsBlank(id)
    ensures DocumentSegments(STUDY_SEGMENTS + [id])
  {
    StudySegmentsNotBlank();
    var parts := STUDY_SEGMENTS + [id];
    assert forall k :: 0 <= k < 3 ==> parts[k] == STUDY_SEGMENTS[k];
  }

  /** With no id the default root has three segments, and is no document. */
  lemma BlankIdRejected(id: string)
    requires id == []
    ensures NormalizeDocPath(STUDY_PARTICIPANTS + id).Err?
  {
    StrippedRoot(id);
    StudySegmentsNotBlank();
    OddSegmentsRejected(STUDY_SEGMENTS, id, STUDY_PARTICIPANTS + id);
  }

  /** Three collection/document segments and an empty last piece make no
      document path. */
  lemma OddSegmentsRejected(head: seq<string>, last: string, r: string)
    requires |head| == 3 && forall k :: 0 <= k < |head| ==> '/' !in head[k] && !IsBlank(head[k])
    requires last == [] && Stripped(r) == Join(head + [last], "/")
    ensures NormalizeDocPath(r).Err?
  {
    EmptyLastDropped(head, last);
    var n := |Segments(Stripped(r))|;
    assert n == 3 && n % 2 != 0;
  }

  /** An empty last piece is no segment: the segments are the others. */
  lemma EmptyLastDropped(head: seq<string>, last: string)
    requires |head| >= 1 && forall k :: 0 <= k < |head| ==> '/' !in head[k] && !IsBlank(head[k])
    requires last == []
    ensures Segments(Join(head + [last], "/")) == head
  {
    var parts := head + [last];
    assert forall k :: 0 <= k < |parts| ==> '/' !in parts[k];
    SegmentsOfJoin(parts);
    assert !NotBlank(last);
    FilterSnoc(head, last, NotBlank);
    FilterAll(head, NotBlank);
  }
}
