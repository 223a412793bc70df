/** The requests, log events and results the export, analysis, report and
    delete jobs exchange with their screens, and the saved credentials
    setting. */
module JobModels {
  import opened Config
  import opened FirestoreDelete

  /** `ExportRequest`. */
  datatype ExportRequest = ExportRequest(
    credentialPath: string,
    participantId: string,
    docRoot: string,
    dateRange: DateRange,
    limit: int,
    orderByField: string)

  /** `ExportRequest(...)` with the default page limit and order field. */
  function NewExportRequest(credentialPath: string, participantId: string, docRoot: string,
                            dateRange: DateRange): (r: ExportRequest)
    ensures r.credentialPath == credentialPath && r.participantId == participantId
    ensures r.docRoot == docRoot && r.dateRange == dateRange
    ensures r.limit == DEFAULT_LIMIT && r.orderByField == DEFAULT_ORDER_BY_FIELD
  {
    ExportRequest(credentialPath, participantId, docRoot, dateRange, DEFAULT_LIMIT, DEFAULT_ORDER_BY_FIELD)
  }

  /** `ExportLogEvent`. */
  datatype ExportLogEvent =
    | ExportInfo(message: string)
    | ExportError(message: string)
    | CollectionStarted(collectionPath: string)
    | CollectionProgress(collectionPath: string, readCount: int, excludedByDateRangeCount: int,
                         includedRowCount: int)
    | CollectionFinished(collectionPath: string, outputCsvPath: string, readCount: int,
                         excludedByDateRangeCount: int, includedRowCount: int)

  /** `ExportResult`. */
  datatype ExportResult = ExportResult(outputDir: string, generatedFiles: seq<string>)

  /** `FirestoreDeleteRequest`. */
  datatype FirestoreDeleteRequest = FirestoreDeleteRequest(credentialPath: string, docRoot: string, batchSize: int)

  /** The documented default number of deletions per batch commit. */
  const DEFAULT_DELETE_BATCH: int := 400

  /** `FirestoreDeleteRequest(...)` with the default batch size, which the
      deleter uses unchanged. */
  function NewDeleteRequest(credentialPath: string, docRoot: string): (r: FirestoreDeleteRequest)
    ensures r.credentialPath == credentialPath && r.docRoot == docRoot
    ensures r.batchSize == DEFAULT_DELETE_BATCH
    ensures CoerceBatch(r.batchSize) == r.batchSize
  {
    FirestoreDeleteRequest(credentialPath, docRoot, DEFAULT_DELETE_BATCH)
  }

  /** `FirestoreDeleteLogEvent`. */
  datatype FirestoreDeleteLogEvent =
    | DeleteInfo(message: string)
    | DeleteError(message: string)
    | SubcollectionStarted(collectionPath: string)
    | SubcollectionProgress(collectionPath: string, deletedCount: int)
    | SubcollectionFinished(collectionPath: string, deletedCount: int)
    | DeleteFinished(deletedTotalCount: int)

  /** `AnalyzeLogEvent`. */
  datatype AnalyzeLogEvent =
    | AnalyzeInfo(message: string)
    | AnalyzeError(message: string)
    | FileStarted(inputPath: string)
    | FileFinished(inputPath: string, outputKoreaTimeCsv: string, outputAnalysisCsv: string)

  /** `ExcelLogEvent`. */
  datatype ExcelLogEvent =
    | ExcelInfo(message: string)
    | ExcelError(message: string)
    | ExcelFinished(outputXlsxPath: string)

  /** `CredentialsLocalConfig`. */
  datatype CredentialsLocalConfig = CredentialsLocalConfig(credentialPath: string)
}
