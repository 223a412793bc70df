/** `WorkflowDashboardMapper`: the dashboard's view of the three workflow
    steps (export, analyze, Excel report), computed from the settings, the
    credentials and each step's run state. Rendering an instant as a UTC
    calendar date is a parameter. */
module WorkflowDashboard {
  import opened Wrappers
  import opened Text
  import opened Config
  import opened DateRanges
  import opened Credentials
  import opened ConfigViewModel

  datatype WorkflowStep = Export | Analyze | Excel

  /** The steps in dashboard order. */
  const WORKFLOW_STEPS: seq<WorkflowStep> := [Export, Analyze, Excel]

  datatype StepRunStatus = Idle | Running | Success | Error(message: string)

  /** The credentials screen state the dashboard reads. */
  datatype CredentialsUiState = CredentialsUiState(status: CredentialsStatus, lastSelectedPath: Option<string>)

  /** The run state of one step: `ExportUiState`, `AnalyzeUiState` and
      `ExcelUiState` all have this shape. */
  datatype StepRunState = StepRunState(isRunning: bool, logs: seq<string>)

  datatype Inputs = Inputs(
    credentials: CredentialsUiState,
    config: UiState,
    exportState: StepRunState,
    analyzeState: StepRunState,
    excelState: StepRunState,
    outputDirectoryPath: string,
    exportFilesExist: bool,
    koreaTimeFilesExist: bool)

  datatype StepCard = StepCard(
    index: int,
    step: WorkflowStep,
    title: string,
    description: string,
    status: StepRunStatus,
    enabled: bool,
    primaryActionText: string,
    secondaryActionText: string,
    hint: Option<string>,
    badgeText: Option<string>)

  datatype StepConsole = StepConsole(step: WorkflowStep, title: string, lines: seq<string>)

  datatype DashboardUiState = DashboardUiState(
    workspaceTitle: string,
    pageTitle: string,
    serviceKeyLabel: string,
    serviceKeyStatusText: string,
    serviceKeyStatusColor: int,
    serviceKeyPath: Option<string>,
    participantId: string,
    rangeQuickOptions: seq<string>,
    selectedRangeOption: Option<string>,
    rangeStartText: string,
    rangeEndText: string,
    outputDirectoryPath: string,
    readinessTitle: string,
    readinessSubtitle: string,
    totalSteps: int,
    steps: seq<StepCard>,
    stepConsoles: seq<StepConsole>)

  const ACTIVE_COLOR: int := 0xFF16A34A
  const NOT_SET_COLOR: int := 0xFFDC2626
  const NONE_TEXT: string := "(none)"
  const CONSOLE_TITLE: string := "CONSOLE OUTPUT"
  const CLEAR_TEXT: string := "Clear"
  const READY_BADGE: string := "Ready"
  const IDLE_BADGE: string := "Idle"
  const CREDENTIALS_HINT: string := "먼저 Credentials(서비스 계정 키)를 선택해 주세요."
  const PARTICIPANT_HINT: string := "participantId를 입력해 주세요."
  const ANALYZE_HINT: string := "Export를 먼저 실행해서 *_export_*.csv를 생성해 주세요."
  const EXCEL_HINT: string := "Analyze를 먼저 실행해서 *_korea_time.csv를 생성해 주세요."
  const SETUP_SUBTITLE: string := "Participant ID가 필요합니다. 좌측 설정에서 입력해 주세요."
  const QUICK_OPTIONS: seq<string> := ["1D", "1W", "1M", "3M", "All"]
  const CONSOLE_LIMIT: nat := 300

  const ERROR_PREFIX_KO: string := "오류"
  const ERROR_PREFIX_EN: string := "Error"
  const DONE_WORDS: seq<string> := ["종료", "완료", "Finished"]

  // ------------------------------------------------------ run status

  /** `logs.lastOrNull().orEmpty()`. */
  function LastOrEmpty(logs: seq<string>): string {
    if logs == [] then "" else logs[|logs| - 1]
  }

  predicate IsErrorLine(line: string) {
    StartsWith(line, ERROR_PREFIX_KO) || StartsWith(line, ERROR_PREFIX_EN)
  }

  predicate IsDoneLine(line: string) {
    Contains(line, DONE_WORDS[0]) || Contains(line, DONE_WORDS[1]) || Contains(line, DONE_WORDS[2])
  }

  /** `statusFor`. */
  function StatusFor(isRunning: bool, logs: seq<string>): StepRunStatus {
    if isRunning then Running
    else
      var last := LastOrEmpty(logs);
      if IsErrorLine(last) then Error(last)
      else if IsDoneLine(last) then Success
      else Idle
  }

  /** Running wins; otherwise the last log line decides, an error prefix
      before a completion word, and anything else is idle. */
  lemma StatusForCases(isRunning: bool, logs: seq<string>)
    ensures var r := StatusFor(isRunning, logs);
      && (isRunning <==> r == Running)
      && (r.Error? <==> !isRunning && IsErrorLine(LastOrEmpty(logs)))
      && (r.Error? ==> r.message == LastOrEmpty(logs))
      && (r == Success <==> !isRunning && IsDoneLine(LastOrEmpty(logs)) && !IsErrorLine(LastOrEmpty(logs)))
      && (r == Idle <==> !isRunning && !IsErrorLine(LastOrEmpty(logs)) && !IsDoneLine(LastOrEmpty(logs)))
  {
  }

  /** A step that is not running and has no log is idle. */
  lemma NoLogsIdle()
    ensures StatusFor(false, []) == Idle
  {
    assert !Contains("", DONE_WORDS[0]) && !Contains("", DONE_WORDS[1]) && !Contains("", DONE_WORDS[2]);
  }

  /** Only the last log line counts. */
  lemma StatusForLastLine(isRunning: bool, logs: seq<string>, line: string)
    ensures StatusFor(isRunning, logs + [line]) == StatusFor(isRunning, [line])
  {
  }

  /** A last line with an error prefix is an error even when it also
      carries a completion word. */
  lemma ErrorBeforeSuccess(logs: seq<string>, rest: string)
    requires logs != [] && logs[|logs| - 1] == ERROR_PREFIX_EN + rest
    ensures StatusFor(false, logs) == Error(ERROR_PREFIX_EN + rest)
  {
    assert (ERROR_PREFIX_EN + rest)[..|ERROR_PREFIX_EN|] == ERROR_PREFIX_EN;
  }

  // ------------------------------------------------------ consoles

  /** `it.ifBlank { "" }`. */
  function Blanked(line: string): string {
    if IsBlank(line) then "" else line
  }

  function Min(a: nat, b: nat): nat {
    if a <= b then a else b
  }

  /** `map { it.ifBlank { "" } }`. */
  function BlankedAll(lines: seq<string>): seq<string> {
    if lines == [] then [] else [Blanked(lines[0])] + BlankedAll(lines[1..])
  }

  lemma {:induction false} BlankedAllAt(lines: seq<string>)
    ensures |BlankedAll(lines)| == |lines|
    ensures forall i :: 0 <= i < |lines| ==> BlankedAll(lines)[i] == Blanked(lines[i])
  {
    if lines != [] {
      BlankedAllAt(lines[1..]);
      assert forall i :: 0 < i < |lines| ==> lines[1..][i - 1] == lines[i];
    }
  }

  /** `buildStepConsoleLines`. */
  function ConsoleLines(logs: seq<string>, placeholder: string): seq<string> {
    if logs == [] then [placeholder]
    else
      var lines := BlankedAll(logs[|logs| - Min(CONSOLE_LIMIT, |logs|)..]);
      if lines == [] then [placeholder] else lines
  }

  /** The placeholder alone for no logs, else the last 300 lines at most,
      in order, blank ones emptied; never empty. */
  lemma ConsoleLinesSpec(logs: seq<string>, placeholder: string)
    ensures var r := ConsoleLines(logs, placeholder);
      && r != []
      && (logs == [] ==> r == [placeholder])
      && (logs != [] ==> |r| == Min(CONSOLE_LIMIT, |logs|))
      && (logs != [] ==> forall i :: 0 <= i < |r| ==> r[i] == Blanked(logs[|logs| - |r| + i]))
  {
    if logs != [] {
      var tail := logs[|logs| - Min(CONSOLE_LIMIT, |logs|)..];
      BlankedAllAt(tail);
    }
  }

  /** A line that is not blank is shown as it is. */
  lemma ConsoleKeepsLines(logs: seq<string>, placeholder: string)
    requires 0 < |logs| <= CONSOLE_LIMIT
    requires forall i :: 0 <= i < |logs| ==> !IsBlank(logs[i])
    ensures ConsoleLines(logs, placeholder) == logs
  {
    ConsoleLinesSpec(logs, placeholder);
  }

  // ------------------------------------------------------ range labels

  /** `toQuickOptionLabel`. */
  function QuickOptionLabel(p: Preset): (r: string)
    ensures r in QUICK_OPTIONS
  {
    match p
    case Last1D => "1D"
    case Last7D => "1W"
    case Last30D => "1M"
  }

  /** Different presets get different labels, and none is `3M` or `All`. */
  lemma QuickOptionLabelsDistinct(p: Preset, q: Preset)
    ensures QuickOptionLabel(p) == QuickOptionLabel(q) <==> p == q
    ensures QuickOptionLabel(p) != QUICK_OPTIONS[3] && QuickOptionLabel(p) != QUICK_OPTIONS[4]
  {
  }

  function SelectedRangeOption(preset: Option<Preset>): (r: Option<string>)
    ensures r.None? <==> preset.None?
    ensures preset.Some? ==> r == Some(QuickOptionLabel(preset.value))
  {
    if preset.Some? then Some(QuickOptionLabel(preset.value)) else None
  }

  /** `ifBlank { "(none)" }`. */
  function OrNone(text: string): string {
    if IsBlank(text) then NONE_TEXT else text
  }

  /** `formatRangeTexts`: custom texts win when either is given, then the
      range's bounds as UTC dates, the exclusive end shown as the day
      before. */
  function RangeTexts(config: UiState, formatUtcDate: int -> string): (r: (string, string))
    ensures !IsBlank(config.customStartDate) || !IsBlank(config.customEndDate) ==>
      r == (OrNone(config.customStartDate), OrNone(config.customEndDate))
    ensures IsBlank(config.customStartDate) && IsBlank(config.customEndDate) ==>
      var range := config.dateRangeResult;
      && r.0 == (if range.startMillisUtc.Some? then formatUtcDate(range.startMillisUtc.value) else NONE_TEXT)
      && r.1 == (if range.endMillisUtc.Some? then formatUtcDate(range.endMillisUtc.value - DAY_MILLIS) else NONE_TEXT)
  {
    var range := config.dateRangeResult;
    if !IsBlank(config.customStartDate) || !IsBlank(config.customEndDate) then
      (OrNone(config.customStartDate), OrNone(config.customEndDate))
    else if range.startMillisUtc.None? && range.endMillisUtc.None? then
      (NONE_TEXT, NONE_TEXT)
    else
      var startText := if range.startMillisUtc.Some? then formatUtcDate(range.startMillisUtc.value) else NONE_TEXT;
      var endText := if range.endMillisUtc.Some? then formatUtcDate(range.endMillisUtc.value - 24 * 60 * 60 * 1000) else NONE_TEXT;
      (startText, endText)
  }

  /** With a custom text given, the range and the formatter do not matter. */
  lemma CustomTextWins(config: UiState, range: DateRange, f: int -> string, g: int -> string)
    requires !IsBlank(config.customStartDate) || !IsBlank(config.customEndDate)
    ensures RangeTexts(config, f) == RangeTexts(config.(dateRangeResult := range), g)
  {
  }

  // ------------------------------------------------------ the steps

  predicate CredentialsSaved(inputs: Inputs) {
    inputs.credentials.status.Saved?
  }

  /** `participantId.trim().isNotEmpty()`, which holds exactly when the id
      is not blank (`BlankIffTrimEmpty`). */
  predicate ParticipantReady(inputs: Inputs) {
    !IsBlank(inputs.config.participantId)
  }

  lemma ParticipantReadyIff(inputs: Inputs)
    ensures ParticipantReady(inputs) <==> Trim(inputs.config.participantId) != []
  {
    BlankIffTrimEmpty(inputs.config.participantId);
  }

  function ExportHint(credentialsSaved: bool, participantReady: bool): (r: Option<string>)
    ensures r.None? <==> credentialsSaved && participantReady
    ensures !credentialsSaved ==> r == Some(CREDENTIALS_HINT)
    ensures credentialsSaved && !participantReady ==> r == Some(PARTICIPANT_HINT)
  {
    if !credentialsSaved then Some(CREDENTIALS_HINT)
    else if !participantReady then Some(PARTICIPANT_HINT)
    else None
  }

  function Badge(filesExist: bool): string {
    if filesExist then READY_BADGE else IDLE_BADGE
  }

  const EXPORT_PLACEHOLDER: string := "Waiting for export command..."
  const ANALYZE_PLACEHOLDER: string := "Waiting for analysis..."
  const EXCEL_PLACEHOLDER: string := "Ready to generate report..."
  const PARTICIPANT_HEAD: string := "Participant "
  const SELECTED_TEXT: string := " selected. "
  const MODULES_TEXT: string := " modules available."
  const WORKSPACE_TITLE: string := "Workspace"
  const PAGE_TITLE: string := "Workflow Dashboard"
  const SERVICE_KEY_LABEL: string := "SERVICE KEY"
  const ACTIVE_TEXT: string := "Active"
  const NOT_SET_TEXT: string := "Not set"
  const READY_TITLE: string := "Ready to Process"
  const SETUP_TITLE: string := "Setup Required"
  const EXPORT_TITLE: string := "01. EXPORT DATA"
  const EXPORT_DESCRIPTION: string := "Fetch raw data from Firestore and convert to local CSV format."
  const EXPORT_ACTION: string := "Run"
  const ANALYZE_TITLE: string := "02. ANALYZE"
  const ANALYZE_DESCRIPTION: string := "Process raw CSV data to extract meaningful metrics."
  const ANALYZE_ACTION: string := "Analyze"
  const EXCEL_TITLE: string := "03. GENERATE REPORT"
  const EXCEL_DESCRIPTION: string := "Compile analysis results into a researcher-friendly Excel report."
  const EXCEL_ACTION: string := "Generate"

  function ExportCard(inputs: Inputs): StepCard {
    StepCard(1, Export, EXPORT_TITLE, EXPORT_DESCRIPTION,
      StatusFor(inputs.exportState.isRunning, inputs.exportState.logs),
      CredentialsSaved(inputs) && ParticipantReady(inputs) && !inputs.exportState.isRunning,
      EXPORT_ACTION, CLEAR_TEXT, ExportHint(CredentialsSaved(inputs), ParticipantReady(inputs)),
      Some(Badge(inputs.exportFilesExist)))
  }

  function AnalyzeCard(inputs: Inputs): StepCard {
    StepCard(2, Analyze, ANALYZE_TITLE, ANALYZE_DESCRIPTION,
      StatusFor(inputs.analyzeState.isRunning, inputs.analyzeState.logs),
      inputs.exportFilesExist && !inputs.analyzeState.isRunning,
      ANALYZE_ACTION, CLEAR_TEXT, if !inputs.exportFilesExist then Some(ANALYZE_HINT) else None,
      Some(Badge(inputs.koreaTimeFilesExist)))
  }

  function ExcelCard(inputs: Inputs): StepCard {
    StepCard(3, Excel, EXCEL_TITLE, EXCEL_DESCRIPTION,
      StatusFor(inputs.excelState.isRunning, inputs.excelState.logs),
      inputs.koreaTimeFilesExist && !inputs.excelState.isRunning,
      EXCEL_ACTION, CLEAR_TEXT, if !inputs.koreaTimeFilesExist then Some(EXCEL_HINT) else None,
      None)
  }

  function Steps(inputs: Inputs): (r: seq<StepCard>)
    ensures |r| == 3
    ensures r[0].index == 1 && r[1].index == 2 && r[2].index == 3
    ensures [r[0].step, r[1].step, r[2].step] == WORKFLOW_STEPS
  {
    [ExportCard(inputs), AnalyzeCard(inputs), ExcelCard(inputs)]
  }

  /** `steps.count { it.enabled }`. */
  function CountEnabled(steps: seq<StepCard>): (n: nat)
    ensures n <= |steps|
  {
    if steps == [] then 0 else (if steps[0].enabled then 1 else 0) + CountEnabled(steps[1..])
  }

  function Consoles(inputs: Inputs): seq<StepConsole> {
    [ StepConsole(Export, CONSOLE_TITLE, ConsoleLines(inputs.exportState.logs, EXPORT_PLACEHOLDER)),
      StepConsole(Analyze, CONSOLE_TITLE, ConsoleLines(inputs.analyzeState.logs, ANALYZE_PLACEHOLDER)),
      StepConsole(Excel, CONSOLE_TITLE, ConsoleLines(inputs.excelState.logs, EXCEL_PLACEHOLDER)) ]
  }

  function ReadinessSubtitle(inputs: Inputs, steps: seq<StepCard>): string {
    if ParticipantReady(inputs) then
      PARTICIPANT_HEAD + Trim(inputs.config.participantId) + SELECTED_TEXT + NatToString(CountEnabled(steps)) + MODULES_TEXT
    else SETUP_SUBTITLE
  }

  /** `map`: the whole dashboard state. */
  function Map(inputs: Inputs, formatUtcDate: int -> string): (r: DashboardUiState)
    ensures r.totalSteps == |r.steps| == |r.stepConsoles| == 3
    ensures r.steps[0].index == 1 && r.steps[1].index == 2 && r.steps[2].index == 3
    ensures [r.steps[0].step, r.steps[1].step, r.steps[2].step] == WORKFLOW_STEPS
    ensures [r.stepConsoles[0].step, r.stepConsoles[1].step, r.stepConsoles[2].step] == WORKFLOW_STEPS
    ensures r.participantId == inputs.config.participantId && r.outputDirectoryPath == inputs.outputDirectoryPath
  {
    var saved := CredentialsSaved(inputs);
    var steps := Steps(inputs);
    var range := RangeTexts(inputs.config, formatUtcDate);
    DashboardUiState(
      WORKSPACE_TITLE, PAGE_TITLE, SERVICE_KEY_LABEL,
      if saved then ACTIVE_TEXT else NOT_SET_TEXT,
      if saved then ACTIVE_COLOR else NOT_SET_COLOR,
      if saved then Some(inputs.credentials.status.credentialPath) else inputs.credentials.lastSelectedPath,
      inputs.config.participantId,
      QUICK_OPTIONS,
      SelectedRangeOption(inputs.config.preset),
      range.0, range.1,
      inputs.outputDirectoryPath,
      if ParticipantReady(inputs) then READY_TITLE else SETUP_TITLE,
      ReadinessSubtitle(inputs, steps),
      |steps|,
      steps,
      Consoles(inputs))
  }

  // ------------------------------------------------------ properties

  /** Export is on exactly when the key is saved, a participant id is
      given and no export is running. */
  lemma ExportEnabledIff(inputs: Inputs, f: int -> string)
    ensures Map(inputs, f).steps[0].enabled <==>
      inputs.credentials.status.Saved? && !IsBlank(inputs.config.participantId) && !inputs.exportState.isRunning
  {
    BlankIffTrimEmpty(inputs.config.participantId);
  }

  /** Analyze needs export files, the report needs Korea-time files, and
      neither may be running already. */
  lemma LaterStepsEnabledIff(inputs: Inputs, f: int -> string)
    ensures Map(inputs, f).steps[1].enabled <==> inputs.exportFilesExist && !inputs.analyzeState.isRunning
    ensures Map(inputs, f).steps[2].enabled <==> inputs.koreaTimeFilesExist && !inputs.excelState.isRunning
  {
  }

  /** Each step's card shows its own run status. */
  lemma StepStatuses(inputs: Inputs, f: int -> string)
    ensures Map(inputs, f).steps[0].status == StatusFor(inputs.exportState.isRunning, inputs.exportState.logs)
    ensures Map(inputs, f).steps[1].status == StatusFor(inputs.analyzeState.isRunning, inputs.analyzeState.logs)
    ensures Map(inputs, f).steps[2].status == StatusFor(inputs.excelState.isRunning, inputs.excelState.logs)
  {
  }

  /** The export hint names the missing key before the missing
      participant, and there is none when both are set. */
  lemma ExportHintOrder(inputs: Inputs, f: int -> string)
    ensures var hint := Map(inputs, f).steps[0].hint;
      && (hint.None? <==> inputs.credentials.status.Saved? && !IsBlank(inputs.config.participantId))
      && (inputs.credentials.status.NotSaved? ==> hint == Some(CREDENTIALS_HINT))
      && (inputs.credentials.status.Saved? && IsBlank(inputs.config.participantId) ==> hint == Some(PARTICIPANT_HINT))
  {
    BlankIffTrimEmpty(inputs.config.participantId);
  }

  /** Counting enabled cards splits over a list. */
  lemma {:induction false} CountEnabledAppend(a: seq<StepCard>, b: seq<StepCard>)
    decreases |a|
    ensures CountEnabled(a + b) == CountEnabled(a) + CountEnabled(b)
  {
    if a == [] {
      assert a + b == b;
    } else {
      assert (a + b)[0] == a[0] && (a + b)[1..] == a[1..] + b;
      CountEnabledAppend(a[1..], b);
    }
  }

  /** The readiness line counts the enabled steps. */
  lemma ReadinessCountsEnabled(inputs: Inputs, f: int -> string)
    requires !IsBlank(inputs.config.participantId)
    ensures var r := Map(inputs, f);
      r.readinessSubtitle == PARTICIPANT_HEAD + Trim(inputs.config.participantId) + SELECTED_TEXT
        + NatToString((if r.steps[0].enabled then 1 else 0) + (if r.steps[1].enabled then 1 else 0)
                      + (if r.steps[2].enabled then 1 else 0))
        + MODULES_TEXT
  {
    CountEnabledThree(Steps(inputs));
  }

  lemma CountEnabledThree(steps: seq<StepCard>)
    requires |steps| == 3
    ensures CountEnabled(steps) == (if steps[0].enabled then 1 else 0) + (if steps[1].enabled then 1 else 0)
                                   + (if steps[2].enabled then 1 else 0)
  {
    var s1 := steps[1..];
    var s2 := s1[1..];
    assert s1[0] == steps[1] && s2[0] == steps[2] && s2[1..] == [];
    assert CountEnabled(s2) == (if steps[2].enabled then 1 else 0) + CountEnabled(s2[1..]);
  }

  /** With no logs at all, every console shows its placeholder. */
  lemma NoLogsPlaceholders(inputs: Inputs, f: int -> string)
    requires inputs.exportState.logs == [] && inputs.analyzeState.logs == [] && inputs.excelState.logs == []
    ensures Map(inputs, f).stepConsoles[0].lines == [EXPORT_PLACEHOLDER]
    ensures Map(inputs, f).stepConsoles[1].lines == [ANALYZE_PLACEHOLDER]
    ensures Map(inputs, f).stepConsoles[2].lines == [EXCEL_PLACEHOLDER]
  {
  }

  /** The selected quick option follows the preset. */
  lemma SelectedOptionFollowsPreset(inputs: Inputs, f: int -> string)
    ensures inputs.config.preset == Some(Last7D) ==> Map(inputs, f).selectedRangeOption == Some("1W")
    ensures inputs.config.preset.None? ==> Map(inputs, f).selectedRangeOption.None?
    ensures Map(inputs, f).selectedRangeOption.Some? ==> Map(inputs, f).selectedRangeOption.value in Map(inputs, f).rangeQuickOptions
  {
  }

  /** The key's path is the saved one, else the last file picked. */
  lemma ServiceKeyShown(inputs: Inputs, f: int -> string)
    ensures var r := Map(inputs, f);
      && (inputs.credentials.status.Saved? ==>
            r.serviceKeyStatusText == ACTIVE_TEXT && r.serviceKeyPath == Some(inputs.credentials.status.credentialPath))
      && (inputs.credentials.status.NotSaved? ==>
            r.serviceKeyStatusText == NOT_SET_TEXT && r.serviceKeyPath == inputs.credentials.lastSelectedPath)
  {
  }
}
