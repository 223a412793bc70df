/** The pure and paging core of the desktop Firestore exporter: how a field
    value becomes an epoch millisecond, which documents the date range lets
    through, how the collection is read page by page with its progress
    counters, how the CSV table is shaped and how the output file prefix is
    derived from the collection path.

    Firestore itself is not modelled: a collection is the sequence of its
    documents in the order `orderBy(field)` returns them, given as a
    function of the field, and whether the k-th page query fails is a
    parameter. */
module FirestoreExport {
  import opened Wrappers
  import opened Text
  import opened Collections
  import opened CsvUtils
  import opened CsvReading
  import opened Config
  import CsvAnalyzer
  import DocPath
  import opened FirestoreDocs
  import opened FirestorePaging

  // ------------------------------------------------------- epoch values

  /** `Timestamp.toDate().time`: whole milliseconds, the sub-millisecond
      part of the nanoseconds dropped. */
  function TimestampMillis(seconds: int, nanos: nat): int {
    seconds * 1000 + nanos / 1_000_000
  }

  /** The exporter's `parseEpochMillisOrNull`: a timestamp gives its
      milliseconds, a number itself, a string its trimmed text read as a
      64-bit integer or else as an ISO-8601 instant (`isoParse`); anything
      else is no time at all. */
  function ExportEpoch(v: Value, isoParse: string -> Option<int>): (r: Option<int>)
    ensures v.Null? || v.Bool? || v.Structured? ==> r == None
    ensures v.Number? ==> r == Some(v.n)
    ensures v.Timestamp? ==> r == Some(TimestampMillis(v.seconds, v.nanos))
    ensures v.Str? && ParseLong(Trim(v.s)).Some? ==> r == ParseLong(Trim(v.s))
    ensures v.Str? && ParseLong(Trim(v.s)).None? ==> r == isoParse(Trim(v.s))
  {
    match v
    case Timestamp(s, n) => Some(TimestampMillis(s, n))
    case Number(n) => Some(n)
    case Str(s) =>
      var trimmed := Trim(s);
      (match ParseLong(trimmed)
       case Some(n) => Some(n)
       case None => isoParse(trimmed))
    case _ => None
  }

  /** A 64-bit integer written as decimal text is read back as that very
      number of milliseconds. */
  lemma ExportEpochOfIntegerText(n: int, isoParse: string -> Option<int>)
    requires MIN_LONG <= n <= MAX_LONG
    ensures ExportEpoch(Str(IntToString(n)), isoParse) == Some(n)
  {
    IntToStringTrimmed(n);
    ParseLongIntToString(n);
  }

  /** Unlike the analyzer, the exporter does not read ten-digit numbers as
      seconds: the same text gives a thousand times less. */
  lemma ExportDoesNotScaleSeconds(n: int, isoParse: string -> Option<int>)
    requires CsvAnalyzer.SECONDS_LOW <= n <= CsvAnalyzer.SECONDS_HIGH
    ensures ExportEpoch(Str(IntToString(n)), isoParse) == Some(n)
    ensures CsvAnalyzer.EpochOfText(IntToString(n), isoParse) == Some(n * 1000)
  {
    ExportEpochOfIntegerText(n, isoParse);
    ParseLongIntToString(n);
  }

  // ----------------------------------------------------- date filtering

  /** The keys tried for a document's time, most preferred first. */
  const CANDIDATE_KEYS: seq<string> :=
    ["ingestedAt", "endedAt", "ended_at", "endAt", "createdAt", "startedAt", "startAt"]

  /** The time the value under `key` gives, if any. */
  function KeyEpoch(d: Document, key: string, isoParse: string -> Option<int>): Option<int> {
    ExportEpoch(Get(d.fields, key), isoParse)
  }

  function EpochAt(d: Document, isoParse: string -> Option<int>): string -> Option<int> {
    key => KeyEpoch(d, key, isoParse)
  }

  /** The first candidate key whose value gives a time decides. */
  function DocEpoch(d: Document, isoParse: string -> Option<int>): Option<int> {
    FirstNotNull(CANDIDATE_KEYS, EpochAt(d, isoParse))
  }

  /** The document's time is that of the first candidate key giving one,
      and there is none exactly when no candidate key gives one. */
  lemma DocEpochFirstKey(d: Document, isoParse: string -> Option<int>, i: nat)
    requires i < |CANDIDATE_KEYS| && KeyEpoch(d, CANDIDATE_KEYS[i], isoParse).Some?
    requires forall j :: 0 <= j < i ==> KeyEpoch(d, CANDIDATE_KEYS[j], isoParse).None?
    ensures DocEpoch(d, isoParse) == KeyEpoch(d, CANDIDATE_KEYS[i], isoParse)
  {
    FirstNotNullAt(CANDIDATE_KEYS, EpochAt(d, isoParse), i);
  }

  lemma DocEpochNone(d: Document, isoParse: string -> Option<int>)
    ensures DocEpoch(d, isoParse).None? <==>
      forall k :: 0 <= k < |CANDIDATE_KEYS| ==> KeyEpoch(d, CANDIDATE_KEYS[k], isoParse).None?
  {
    var f := EpochAt(d, isoParse);
    assert forall k :: 0 <= k < |CANDIDATE_KEYS| ==> f(CANDIDATE_KEYS[k]) == KeyEpoch(d, CANDIDATE_KEYS[k], isoParse);
  }

  /** `shouldIncludeByDateRange`. With no bound every document passes; a
      document without a time passes; otherwise its time (the first
      candidate key's, see `DocEpochFirstKey`) must lie within the
      inclusive start and the exclusive end. */
  function ShouldInclude(d: Document, range: DateRange, isoParse: string -> Option<int>): (b: bool)
    ensures range.startMillisUtc.None? && range.endMillisUtc.None? ==> b
    ensures DocEpoch(d, isoParse).None? ==> b
    ensures DocEpoch(d, isoParse).Some? ==> (b <==> Admits(range, DocEpoch(d, isoParse).value))
  {
    var start := range.startMillisUtc;
    var end := range.endMillisUtc;
    if start.None? && end.None? then true
    else
      match DocEpoch(d, isoParse)
      case None => true
      case Some(millis) =>
        if start.Some? && millis < start.value then false
        else if end.Some? && millis >= end.value then false
        else true
  }

  /** A document stamped with a single candidate key is kept exactly when
      the range admits that stamp, whatever the key's rank. */
  lemma SingleStampDecides(id: string, key: string, millis: int, range: DateRange,
                           isoParse: string -> Option<int>)
    requires key in CANDIDATE_KEYS
    ensures ShouldInclude(Document(id, [(key, Number(millis))]), range, isoParse)
            <==> Admits(range, millis)
  {
    var d := Document(id, [(key, Number(millis))]);
    var i :| 0 <= i < |CANDIDATE_KEYS| && CANDIDATE_KEYS[i] == key;
    assert KeyEpoch(d, key, isoParse) == Some(millis);
    forall j | 0 <= j < i ensures KeyEpoch(d, CANDIDATE_KEYS[j], isoParse).None? {
      assert CANDIDATE_KEYS[j] != CANDIDATE_KEYS[i];
    }
    DocEpochFirstKey(d, isoParse, i);
  }

  /** `ShouldInclude` as a test to filter with. */
  function Includer(range: DateRange, isoParse: string -> Option<int>): Document -> bool {
    d => ShouldInclude(d, range, isoParse)
  }

  /** The documents of `docs` that the range lets through, in order. */
  function Included(docs: seq<Document>, range: DateRange, isoParse: string -> Option<int>): seq<Document> {
    KeptUpTo(docs, |docs|, Includer(range, isoParse))
  }

  /** The documents the range lets through are exactly those it admits,
      in their order. */
  lemma IncludedFilters(docs: seq<Document>, range: DateRange, isoParse: string -> Option<int>)
    ensures Included(docs, range, isoParse) == Filter(docs, Includer(range, isoParse))
    ensures forall d :: d in Included(docs, range, isoParse) <==> d in docs && ShouldInclude(d, range, isoParse)
  {
    KeptUpToIsFilter(docs, |docs|, Includer(range, isoParse));
    assert docs[..|docs|] == docs;
  }

  // ---------------------------------------------------------- table rows

  /** `serializeValue`: nothing for a missing value, the ISO-8601 text
      (`renderInstant`) of a timestamp's `toDate().toInstant()`, which is
      cut to whole milliseconds, the Kotlin `toString` for whole numbers,
      booleans and strings, and the encoder's text for structured values. */
  function Serialize(v: Value, renderInstant: int -> string): (r: string)
    ensures v.Null? ==> r == ""
    ensures v.Str? ==> r == v.s
    ensures v.Number? ==> r == IntToString(v.n)
    ensures v.Bool? ==> r == (if v.b then "true" else "false")
    ensures v.Timestamp? ==> r == renderInstant(TimestampMillis(v.seconds, v.nanos))
    ensures v.Structured? ==> r == v.rendered
  {
    match v
    case Null => ""
    case Timestamp(s, n) => renderInstant(TimestampMillis(s, n))
    case Number(n) => IntToString(n)
    case Bool(b) => if b then "true" else "false"
    case Str(s) => s
    case Structured(j) => j
  }

  /** The cells `writeCsv` writes for one document, one per header entry:
      the document id under `id`, the serialized value otherwise. */
  function RowCells(header: seq<string>, d: Document, renderInstant: int -> string): (cells: seq<string>)
    ensures |cells| == |header|
    ensures forall k :: 0 <= k < |header| && header[k] == "id" ==> cells[k] == d.id
    ensures forall k :: 0 <= k < |header| && header[k] != "id" ==>
              cells[k] == Serialize(Get(d.fields, header[k]), renderInstant)
  {
    seq(|header|, k requires 0 <= k < |header| =>
      if header[k] == "id" then d.id else Serialize(Get(d.fields, header[k]), renderInstant))
  }

  /** A header key the document does not hold gives an empty cell. */
  lemma MissingKeyEmpty(header: seq<string>, d: Document, renderInstant: int -> string, k: int)
    requires 0 <= k < |header| && header[k] != "id" && header[k] !in Keys(d)
    ensures RowCells(header, d, renderInstant)[k] == ""
  {
    forall i | 0 <= i < |d.fields| ensures d.fields[i].0 != header[k] {
      assert Keys(d)[i] == d.fields[i].0;
    }
  }

  function Rows(header: seq<string>, docs: seq<Document>, renderInstant: int -> string): (rows: seq<seq<string>>)
    ensures |rows| == |docs|
    ensures forall i :: 0 <= i < |docs| ==> rows[i] == RowCells(header, docs[i], renderInstant)
  {
    seq(|docs|, i requires 0 <= i < |docs| => RowCells(header, docs[i], renderInstant))
  }

  /** `writeCsv`: the lines of the file, the header and then one row per
      document, every cell escaped and joined by commas. */
  function WriteCsv(header: seq<string>, docs: seq<Document>, renderInstant: int -> string): (lines: seq<string>)
    ensures |lines| == |docs| + 1
  {
    EncodeFile(header, Rows(header, docs, renderInstant))
  }

  /** Reading an exported file back gives its header and, for every kept
      document in order, its cells, provided no document id is blank (a
      file whose only column is `id` would otherwise hold blank lines the
      reader skips) and no header or cell holds a line break (such a row
      spans several lines of the file). */
  lemma ExportReadBack(included: seq<Document>, renderInstant: int -> string)
    requires forall i :: 0 <= i < |included| ==> !IsBlank(included[i].id)
    requires SingleLineFields(Header(included))
    requires var rows := Rows(Header(included), included, renderInstant);
      forall i :: 0 <= i < |rows| ==> SingleLineFields(rows[i])
    ensures var h := Header(included);
      Read(WriteCsv(h, included, renderInstant)) == CsvFile(h, Rows(h, included, renderInstant))
  {
    var h := Header(included);
    HeaderShape(included);
    var rows := Rows(h, included, renderInstant);
    forall i | 0 <= i < |rows| ensures |rows[i]| >= 1 && !WrittenBlank(rows[i]) && SingleLineFields(rows[i]) {
      assert rows[i][0] == included[i].id;
      NotWrittenBlank(rows[i]);
    }
    ReadEncodedFile(h, rows);
  }

  // ------------------------------------------------------------- paging

  /** `orderByField.ifBlank { "__name__" }`: a blank field is replaced,
      any other is used as typed. */
  function OrderByField(field: string): (r: string)
    ensures IsBlank(field) ==> r == DEFAULT_ORDER_BY_FIELD
    ensures !IsBlank(field) ==> r == field
  {
    if IsBlank(field) then DEFAULT_ORDER_BY_FIELD else field
  }

  /** The field a page query orders by is never blank. */
  lemma OrderByFieldNotBlank(field: string)
    ensures !IsBlank(OrderByField(field))
  {
    DefaultOrderFieldTrimmed();
  }

  /** What the collection export hands back: the header, the kept
      documents (the rows to write) and the three counters. */
  datatype Exported = Exported(header: seq<string>, rows: seq<Document>,
                               readCount: int, excludedCount: int, includedCount: int)

  /** `exportSingleCollection` up to writing the file: the limit clamped,
      the order field defaulted, and the collection paged through with the
      date-range test. The header, the kept documents and the counters are
      those of the whole collection exactly when no query it needs fails;
      every progress report keeps `read == excluded + included`. */
  method ExportCollection(ordered: string -> seq<Document>, requestLimit: int, requestOrderBy: string,
                          range: DateRange, isoParse: string -> Option<int>, fetchFails: nat -> bool)
    returns (result: Option<Exported>, progress: seq<Progress>)
    ensures var docs := ordered(OrderByField(requestOrderBy));
      var limit := PageLimit(requestLimit);
      var kept := Included(docs, range, isoParse);
      && (result.Some? <==> forall k: nat :: k < FetchesNeeded(|docs|, limit) ==> !fetchFails(k))
      && (result.Some? ==> result.value == Exported(Header(kept), kept, |docs|, |docs| - |kept|, |kept|))
      && (result.None? ==>
            exists k: nat :: k < FetchesNeeded(|docs|, limit) && fetchFails(k)
                             && (forall j: nat :: j < k ==> !fetchFails(j))
                             && Offset(k, limit) <= |docs|
                             && progress != []
                             && progress[|progress| - 1] == ProgressAt(docs, Offset(k, limit), Includer(range, isoParse)))
    ensures forall i :: 0 <= i < |progress| ==> Balanced(progress[i])
  {
    var limit := PageLimit(requestLimit);
    var docs := ordered(OrderByField(requestOrderBy));
    var failedAt, state;
    failedAt, state, progress := PageThrough(docs, limit, Includer(range, isoParse), fetchFails);
    if failedAt.Some? {
      result := None;
    } else {
      HeaderUpToHeader(docs, |docs|, Includer(range, isoParse));
      result := Some(Exported(state.header, state.included, state.read, state.excluded, |state.included|));
    }
  }

  // ---------------------------------------------------------- file names

  /** The collection path with `/` and `\` each replaced by `__`. */
  function SafePath(path: string): (r: string)
    ensures '/' !in r && '\\' !in r
    ensures '/' !in path && '\\' !in path ==> r == path
  {
    var once := ReplaceChar(path, '/', "__");
    assert '/' !in "__" && '\\' !in "__";
    ReplaceCharRemoves(path, '/', "__");
    ReplaceCharKeepsOut(once, '\\', "__", '/');
    ReplaceCharRemoves(once, '\\', "__");
    assert '/' !in path && '\\' !in path ==> once == path by {
      if '/' !in path { ReplaceCharAbsent(path, '/', "__"); }
    }
    assert '\\' !in once ==> ReplaceChar(once, '\\', "__") == once by {
      if '\\' !in once { ReplaceCharAbsent(once, '\\', "__"); }
    }
    ReplaceChar(once, '\\', "__")
  }

  /** The prefix of the collection's CSV file: the safe path and `_export`. */
  function FilePrefix(path: string): (r: string)
    ensures r == SafePath(path) + "_export"
    ensures '/' !in r && '\\' !in r
  {
    assert '/' !in "_export" && '\\' !in "_export";
    SafePath(path) + "_export"
  }

  // --------------------------------------------------------- the export

  const BLANK_DOC_ROOT: string := "docRoot가 비어 있어요. participantId를 입력해 주세요."

  /** The checks `export` makes on the document root before it lists the
      sub-collections: blank after trimming is refused with its own message,
      anything else goes through the path normalizer. */
  function ExportDocRoot(docRoot: string): (r: Result<string, string>)
    ensures IsBlank(Trim(docRoot)) ==> r == Err(BLANK_DOC_ROOT)
    ensures !IsBlank(Trim(docRoot)) ==> r == DocPath.NormalizeDocPath(Trim(docRoot))
  {
    var raw := Trim(docRoot);
    if IsBlank(raw) then Err(BLANK_DOC_ROOT) else DocPath.NormalizeDocPath(raw)
  }
}
