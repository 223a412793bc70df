/** `AppConfigViewModel`: the settings form. Its state is an immutable
    `AppConfigUiState` that every handler replaces by an updated copy. The
    repository's answers, the clock and the calendar-date text format are
    parameters of the handlers. */
module ConfigViewModel {
  import opened Wrappers
  import opened Text
  import opened Config
  import opened DateRanges

  const SAVED_MESSAGE: string := "설정을 저장했어요."
  const FALLBACK_MESSAGE: string := "문제가 발생했어요. 다시 시도해 주세요."
  const START_FIELD: string := "Start Date"
  const END_FIELD: string := "End Date"

  /** `toUserMessage`: the failure's own message if it has a non-blank one,
      else the fallback; never blank. */
  function UserMessage(failureMessage: Option<string>): (m: string)
    ensures !IsBlank(m)
    ensures failureMessage.Some? && !IsBlank(failureMessage.value) ==> m == failureMessage.value
    ensures (failureMessage.None? || IsBlank(failureMessage.value)) ==> m == FALLBACK_MESSAGE
  {
    if failureMessage.Some? && !IsBlank(failureMessage.value) then failureMessage.value
    else
      assert !IsWhitespace(FALLBACK_MESSAGE[0]);
      FALLBACK_MESSAGE
  }

  datatype UiState = UiState(
    isLoading: bool,
    message: Option<string>,
    participantId: string,
    docRootOverride: string,
    preset: Option<Preset>,
    customStartDate: string,
    customEndDate: string,
    dateRangeResult: DateRange,
    dateRangeError: Option<string>,
    limit: string,
    orderByField: string,
    maxBatch: string)

  /** `AppConfigUiState()`: the defaults shown before anything is loaded. */
  const INITIAL_STATE: UiState :=
    UiState(false, None, "", "", None, "", "", NO_RANGE, None, "500", DEFAULT_ORDER_BY_FIELD, "1000")

  // ------------------------------------------------------------ saving

  /** The override `save` keeps: the trimmed text unless it is blank. */
  function DocRootOf(text: string): (r: Option<string>)
    ensures r.None? <==> IsBlank(text)
    ensures Trim(text) == text && !IsBlank(text) ==> r == Some(text)
  {
    var trimmed := Trim(text);
    BlankIffTrimEmpty(text);
    TrimmedNotBlankUnlessEmpty(text);
    if !IsBlank(trimmed) then Some(trimmed) else None
  }

  /** Keeping an override twice keeps the same override. */
  lemma DocRootOfIdempotent(text: string)
    ensures DocRootOf(DocRootOf(text).GetOr("")) == DocRootOf(text)
  {
    TrimIdempotent(text);
    TrimmedNotBlankUnlessEmpty(text);
  }

  /** The order field `save` keeps: the trimmed text, or the default name
      when that is blank. */
  function OrderByOf(text: string): (r: string)
    ensures IsBlank(text) ==> r == DEFAULT_ORDER_BY_FIELD
    ensures Trim(text) == text && !IsBlank(text) ==> r == text
  {
    var trimmed := Trim(text);
    BlankIffTrimEmpty(text);
    TrimmedNotBlankUnlessEmpty(text);
    if IsBlank(trimmed) then DEFAULT_ORDER_BY_FIELD else trimmed
  }

  /** Keeping an order field twice keeps the same field. */
  lemma OrderByOfIdempotent(text: string)
    ensures OrderByOf(OrderByOf(text)) == OrderByOf(text)
  {
    TrimIdempotent(text);
    TrimmedNotBlankUnlessEmpty(text);
    DefaultOrderFieldTrimmed();
  }

  /** A number field as `save` reads it: the trimmed text as a 32-bit
      number, or the default when it is not one. */
  function NumberOr(text: string, default: int): (r: int)
    requires MIN_INT <= default <= MAX_INT
    ensures MIN_INT <= r <= MAX_INT
    ensures forall n :: MIN_INT <= n <= MAX_INT && text == IntToString(n) ==> r == n
  {
    forall n | MIN_INT <= n <= MAX_INT && text == IntToString(n) ensures ParseInt(Trim(text)) == Some(n) {
      IntToStringTrimmed(n);
      ParseIntIntToString(n);
    }
    ParseInt(Trim(text)).GetOr(default)
  }

  /** The configuration `save` builds from the form. */
  function ConfigOf(s: UiState): AppConfig {
    AppConfig(
      Trim(s.participantId),
      DocRootOf(s.docRootOverride),
      s.dateRangeResult,
      NumberOr(s.limit, DEFAULT_LIMIT),
      OrderByOf(s.orderByField),
      NumberOr(s.maxBatch, DEFAULT_MAX_BATCH))
  }

  /** A configuration in the shape `save` writes: a trimmed participant
      id, an override and an order field that `save` keeps as they are, and
      32-bit numbers. */
  predicate Normalized(c: AppConfig) {
    && Trim(c.participantId) == c.participantId
    && DocRootOf(c.docRoot.GetOr("")) == c.docRoot
    && OrderByOf(c.orderByField) == c.orderByField
    && MIN_INT <= c.limit <= MAX_INT
    && MIN_INT <= c.maxBatch <= MAX_INT
  }

  /** Whatever the form holds, what `save` writes is normalized. */
  lemma SavedIsNormalized(s: UiState)
    ensures Normalized(ConfigOf(s))
  {
    var c := ConfigOf(s);
    assert Trim(c.participantId) == c.participantId by { TrimIdempotent(s.participantId); }
    assert DocRootOf(c.docRoot.GetOr("")) == c.docRoot by { DocRootOfIdempotent(s.docRootOverride); }
    assert OrderByOf(c.orderByField) == c.orderByField by { OrderByOfIdempotent(s.orderByField); }
  }

  /** Saving the untouched initial form writes the default configuration. */
  lemma InitialSavesDefaults()
    ensures ConfigOf(INITIAL_STATE) == DEFAULT_CONFIG
  {
    assert IntToString(DEFAULT_LIMIT) == "500";
    assert IntToString(DEFAULT_MAX_BATCH) == "1000";
    DefaultOrderFieldTrimmed();
  }

  // ------------------------------------------------------------ loading

  /** The form after a successful load, before the date inputs are
      restored. */
  function LoadedState(s: UiState, c: AppConfig): UiState {
    s.(isLoading := false,
       participantId := c.participantId,
       docRootOverride := c.docRoot.GetOr(""),
       dateRangeResult := c.dateRange,
       dateRangeError := None,
       limit := IntToString(c.limit),
       orderByField := c.orderByField,
       maxBatch := IntToString(c.maxBatch))
  }

  function Abs(x: int): nat {
    if x < 0 then -x else x
  }

  /** The preset whose length lies within three minutes of a duration. */
  function NearPreset(durationMillis: int): Option<Preset> {
    if Abs(durationMillis - DAY_MILLIS) <= 3 * MINUTE_MILLIS then Some(Last1D)
    else if Abs(durationMillis - 7 * DAY_MILLIS) <= 3 * MINUTE_MILLIS then Some(Last7D)
    else if Abs(durationMillis - 30 * DAY_MILLIS) <= 3 * MINUTE_MILLIS then Some(Last30D)
    else None
  }

  /** A window ends near now: within ten minutes of it. */
  predicate EndsNearNow(range: DateRange, nowUtcMillis: int) {
    range.endMillisUtc.Some? && Abs(range.endMillisUtc.value - nowUtcMillis) <= 10 * MINUTE_MILLIS
  }

  /** The preset a stored window is shown as, if any. */
  function RecognizedPreset(range: DateRange, nowUtcMillis: int): Option<Preset> {
    if EndsNearNow(range, nowUtcMillis) && range.startMillisUtc.Some? then
      NearPreset(range.endMillisUtc.value - range.startMillisUtc.value)
    else None
  }

  /** The stored window is shown as typed days: it has a bound and no
      preset is recognized in it. */
  predicate ShownAsDays(range: DateRange, nowUtcMillis: int) {
    (range.startMillisUtc.Some? || range.endMillisUtc.Some?) && RecognizedPreset(range, nowUtcMillis).None?
  }

  /** The start field a restore shows: the UTC day of the start. */
  function RestoredStartText(range: DateRange, nowUtcMillis: int, renderDate: int -> string): string {
    if ShownAsDays(range, nowUtcMillis) && range.startMillisUtc.Some? then renderDate(DayOf(range.startMillisUtc.value))
    else ""
  }

  /** The end field a restore shows: the day before the exclusive end. */
  function RestoredEndText(range: DateRange, nowUtcMillis: int, renderDate: int -> string): string {
    if ShownAsDays(range, nowUtcMillis) && range.endMillisUtc.Some? then renderDate(DayOf(range.endMillisUtc.value) - 1)
    else ""
  }

  /** `restoreDateRangeInputsFromPersisted`: no window clears the inputs; a
      window ending near now whose length is close to a preset selects that
      preset; anything else is shown as the UTC day of its start and the day
      before its exclusive end. `renderDate` renders an epoch day as text. */
  function Restored(s: UiState, range: DateRange, nowUtcMillis: int, renderDate: int -> string): UiState {
    s.(preset := RecognizedPreset(range, nowUtcMillis),
       customStartDate := RestoredStartText(range, nowUtcMillis, renderDate),
       customEndDate := RestoredEndText(range, nowUtcMillis, renderDate))
  }

  /** The whole effect of a successful load. */
  function AfterLoad(s: UiState, c: AppConfig, nowUtcMillis: int, renderDate: int -> string): UiState {
    Restored(LoadedState(s, c), c.dateRange, nowUtcMillis, renderDate)
  }

  /** Loading a normalized configuration into any form and saving it again
      writes the same configuration back. */
  lemma SaveAfterLoad(s: UiState, c: AppConfig, nowUtcMillis: int, renderDate: int -> string)
    requires Normalized(c)
    ensures ConfigOf(AfterLoad(s, c, nowUtcMillis, renderDate)) == c
  {
    RestoreKeepsConfig(LoadedState(s, c), c.dateRange, nowUtcMillis, renderDate);
    SaveLoaded(s, c);
  }

  /** Restoring the date inputs touches nothing `save` reads. */
  lemma RestoreKeepsConfig(s: UiState, range: DateRange, nowUtcMillis: int, renderDate: int -> string)
    ensures ConfigOf(Restored(s, range, nowUtcMillis, renderDate)) == ConfigOf(s)
  {
  }

  lemma SaveLoaded(s: UiState, c: AppConfig)
    requires Normalized(c)
    ensures ConfigOf(LoadedState(s, c)) == c
  {
  }

  /** A preset window saved within ten minutes of the load comes back as
      that preset, with the custom inputs empty. */
  lemma RestorePreset(s: UiState, p: Preset, savedAtMillis: int, nowUtcMillis: int, renderDate: int -> string)
    requires Abs(savedAtMillis - nowUtcMillis) <= 10 * MINUTE_MILLIS
    ensures var r := Restored(s, PresetToUtcMillis(p, savedAtMillis), nowUtcMillis, renderDate);
      r.preset == Some(p) && r.customStartDate == "" && r.customEndDate == ""
  {
  }

  /** A custom window of whole days comes back as its first and last day,
      unless it ends near now and is one, seven or thirty days long, in
      which case it is shown as that preset. */
  lemma RestoreCustom(s: UiState, start: Option<int>, end: Option<int>, nowUtcMillis: int, renderDate: int -> string)
    requires start.Some? || end.Some?
    requires CustomDatesToUtcMillis(start, end).Ok?
    requires var range := CustomDatesToUtcMillis(start, end).value;
      !(start.Some? && end.Some? && EndsNearNow(range, nowUtcMillis) && end.value - start.value + 1 in {1, 7, 30})
    ensures var r := Restored(s, CustomDatesToUtcMillis(start, end).value, nowUtcMillis, renderDate);
      && r.preset == None
      && r.customStartDate == (if start.Some? then renderDate(start.value) else "")
      && r.customEndDate == (if end.Some? then renderDate(end.value) else "")
  {
    var range := CustomDatesToUtcMillis(start, end).value;
    if start.Some? {
      DayOfMidnight(start.value);
    }
    if end.Some? {
      DayOfMidnight(end.value + 1);
    }
    if start.Some? && end.Some? {
      WholeDaysNotNearPreset(start.value, end.value);
    }
  }

  /** The day of a midnight is that day. */
  lemma DayOfMidnight(day: int)
    ensures DayOf(day * DAY_MILLIS) == day
  {
    MidnightBound(day * DAY_MILLIS, day);
    MidnightBound(day * DAY_MILLIS, day + 1);
    assert (day + 1) * DAY_MILLIS == day * DAY_MILLIS + DAY_MILLIS;
  }

  /** A window of whole days is within three minutes of a preset's length
      only when it is exactly that many days. */
  lemma WholeDaysNotNearPreset(start: int, end: int)
    requires start <= end
    ensures NearPreset((end + 1) * DAY_MILLIS - start * DAY_MILLIS).Some? <==> end - start + 1 in {1, 7, 30}
  {
    var n := end - start + 1;
    assert (end + 1) * DAY_MILLIS - start * DAY_MILLIS == n * DAY_MILLIS;
    if n == 1 || n == 7 || n == 30 {
    } else if n < 7 {
      MulMonotone(2, n);
      MulMonotone(n, 6);
    } else if n < 30 {
      MulMonotone(8, n);
      MulMonotone(n, 29);
    } else {
      MulMonotone(31, n);
    }
  }

  /** A custom single day that ends within ten minutes of now is shown as
      the one-day preset after a reload. */
  lemma RestoreDayAsPreset(s: UiState, day: int, nowUtcMillis: int, renderDate: int -> string)
    requires Abs((day + 1) * DAY_MILLIS - nowUtcMillis) <= 10 * MINUTE_MILLIS
    ensures Restored(s, CustomDatesToUtcMillis(Some(day), Some(day)).value, nowUtcMillis, renderDate).preset == Some(Last1D)
  {
    assert (day + 1) * DAY_MILLIS - day * DAY_MILLIS == DAY_MILLIS;
  }

  // ------------------------------------------------------------ custom dates

  /** The day typed into a date field: none for a blank field. */
  function DayInput(text: string, parseDate: string -> Option<int>): Option<int> {
    if IsBlank(Trim(text)) then None else parseDate(Trim(text))
  }

  /** A date field holds text that does not parse as a date. */
  predicate Unparseable(text: string, parseDate: string -> Option<int>) {
    !IsBlank(Trim(text)) && parseDate(Trim(text)).None?
  }

  /** What `recalcCustomDateRange` makes of the two date fields: an error
      for the first unparseable field, start before end, else the range of
      the typed days. `parseDate` reads `YYYY-MM-DD` text as an epoch
      day. */
  function CustomRange(startText: string, endText: string, parseDate: string -> Option<int>): (r: Result<DateRange, string>)
    ensures Unparseable(startText, parseDate) ==> r == Err(ErrorMessage(InvalidFormat(START_FIELD)))
    ensures !Unparseable(startText, parseDate) && Unparseable(endText, parseDate) ==>
      r == Err(ErrorMessage(InvalidFormat(END_FIELD)))
    ensures r.Ok? <==>
      && !Unparseable(startText, parseDate) && !Unparseable(endText, parseDate)
      && CustomDatesToUtcMillis(DayInput(startText, parseDate), DayInput(endText, parseDate)).Ok?
    ensures r.Ok? ==> r.value == CustomDatesToUtcMillis(DayInput(startText, parseDate), DayInput(endText, parseDate)).value
  {
    if Unparseable(startText, parseDate) then Err(ErrorMessage(InvalidFormat(START_FIELD)))
    else if Unparseable(endText, parseDate) then Err(ErrorMessage(InvalidFormat(END_FIELD)))
    else
      match CustomDatesToUtcMillis(DayInput(startText, parseDate), DayInput(endText, parseDate))
      case Ok(range) => Ok(range)
      case Err(e) => Err(UserMessage(Some(ErrorMessage(e))))
  }

  /** Two blank fields clear the range. */
  lemma BlankFieldsClear(startText: string, endText: string, parseDate: string -> Option<int>)
    requires IsBlank(Trim(startText)) && IsBlank(Trim(endText))
    ensures CustomRange(startText, endText, parseDate) == Ok(NO_RANGE)
  {
  }

  /** An accepted custom range admits exactly the instants whose UTC day
      lies between the typed days, both included. */
  lemma CustomRangeAdmits(startText: string, endText: string, parseDate: string -> Option<int>, m: int)
    requires CustomRange(startText, endText, parseDate).Ok?
    ensures var start := DayInput(startText, parseDate);
      var end := DayInput(endText, parseDate);
      Admits(CustomRange(startText, endText, parseDate).value, m) <==>
        && (start.None? || start.value <= DayOf(m))
        && (end.None? || DayOf(m) <= end.value)
  {
    CustomRangeDays(DayInput(startText, parseDate), DayInput(endText, parseDate), m);
  }

  /** A day whose rendering is trimmed text that parses back to it. */
  predicate RendersBack(renderDate: int -> string, parseDate: string -> Option<int>, day: int) {
    var text := renderDate(day);
    text != [] && Trim(text) == text && parseDate(text) == Some(day)
  }

  /** The custom inputs a reload restores re-parse to the stored range,
      when dates render and parse back. */
  lemma RestoreThenRecalc(s: UiState, start: int, end: int, nowUtcMillis: int,
                          renderDate: int -> string, parseDate: string -> Option<int>)
    requires start <= end
    requires !(EndsNearNow(CustomDatesToUtcMillis(Some(start), Some(end)).value, nowUtcMillis) && end - start + 1 in {1, 7, 30})
    requires RendersBack(renderDate, parseDate, start) && RendersBack(renderDate, parseDate, end)
    ensures var range := CustomDatesToUtcMillis(Some(start), Some(end)).value;
      var r := Restored(s, range, nowUtcMillis, renderDate);
      CustomRange(r.customStartDate, r.customEndDate, parseDate) == Ok(range)
  {
    RestoreCustom(s, Some(start), Some(end), nowUtcMillis, renderDate);
    TrimmedNotBlankUnlessEmpty(renderDate(start));
    TrimmedNotBlankUnlessEmpty(renderDate(end));
  }

  /** The form after `recalcCustomDateRange`: the new range and no error,
      or the error with the previous range kept. */
  function Recalculated(s: UiState, parseDate: string -> Option<int>): UiState {
    match CustomRange(s.customStartDate, s.customEndDate, parseDate)
    case Ok(range) => s.(dateRangeResult := range, dateRangeError := None)
    case Err(message) => s.(dateRangeError := Some(message))
  }

  // ------------------------------------------------------------ the view model

  class AppConfigViewModel {
    var uiState: UiState

    constructor()
      ensures uiState == INITIAL_STATE
    {
      uiState := INITIAL_STATE;
    }

    /** `load`, given the repository's answer: the configuration, or the
        failure's message when there is one. */
    method Load(loaded: Result<AppConfig, Option<string>>, nowUtcMillis: int, renderDate: int -> string)
      modifies this
      ensures loaded.Ok? ==> uiState == AfterLoad(old(uiState).(message := None), loaded.value, nowUtcMillis, renderDate)
      ensures loaded.Err? ==> uiState == old(uiState).(isLoading := false, message := Some(UserMessage(loaded.error)))
      ensures !uiState.isLoading
    {
      uiState := uiState.(isLoading := true, message := None);
      match loaded {
        case Ok(config) =>
          var base := LoadedState(uiState, config);
          uiState := Restored(base, config.dateRange, nowUtcMillis, renderDate);
        case Err(failure) =>
          uiState := uiState.(isLoading := false, message := Some(UserMessage(failure)));
      }
    }

    method OnParticipantIdChanged(value: string)
      modifies this
      ensures uiState == old(uiState).(participantId := value)
    {
      uiState := uiState.(participantId := value);
    }

    method OnDocRootOverrideChanged(value: string)
      modifies this
      ensures uiState == old(uiState).(docRootOverride := value)
    {
      uiState := uiState.(docRootOverride := value);
    }

    /** `selectPreset`: the window of the preset ending now; the custom
        inputs and any error are cleared. */
    method SelectPreset(p: Preset, nowUtcMillis: int)
      modifies this
      ensures uiState == old(uiState).(preset := Some(p), customStartDate := "", customEndDate := "",
                                       dateRangeResult := PresetToUtcMillis(p, nowUtcMillis), dateRangeError := None)
      ensures Admits(uiState.dateRangeResult, nowUtcMillis - 1) && !Admits(uiState.dateRangeResult, nowUtcMillis)
    {
      var range := PresetToUtcMillis(p, nowUtcMillis);
      uiState := uiState.(preset := Some(p), customStartDate := "", customEndDate := "",
                          dateRangeResult := range, dateRangeError := None);
    }

    method OnCustomStartChanged(value: string, parseDate: string -> Option<int>)
      modifies this
      ensures uiState == Recalculated(old(uiState).(customStartDate := value, preset := None), parseDate)
    {
      uiState := uiState.(customStartDate := value, preset := None);
      RecalcCustomDateRange(parseDate);
    }

    method OnCustomEndChanged(value: string, parseDate: string -> Option<int>)
      modifies this
      ensures uiState == Recalculated(old(uiState).(customEndDate := value, preset := None), parseDate)
    {
      uiState := uiState.(customEndDate := value, preset := None);
      RecalcCustomDateRange(parseDate);
    }

    /** `clearDateRange`: no preset, no inputs, no window, no error. */
    method ClearDateRange()
      modifies this
      ensures uiState == old(uiState).(preset := None, customStartDate := "", customEndDate := "",
                                       dateRangeResult := NO_RANGE, dateRangeError := None)
    {
      uiState := uiState.(preset := None, customStartDate := "", customEndDate := "",
                          dateRangeResult := DateRange(None, None), dateRangeError := None);
    }

    method OnLimitChanged(value: string)
      modifies this
      ensures uiState == old(uiState).(limit := value)
    {
      uiState := uiState.(limit := value);
    }

    method OnOrderByFieldChanged(value: string)
      modifies this
      ensures uiState == old(uiState).(orderByField := value)
    {
      uiState := uiState.(orderByField := value);
    }

    method OnMaxBatchChanged(value: string)
      modifies this
      ensures uiState == old(uiState).(maxBatch := value)
    {
      uiState := uiState.(maxBatch := value);
    }

    /** `save`: the configuration handed to the repository, and the form
        with the outcome's message, given the repository's answer (nothing
        on success, else the failure's message when there is one). */
    method Save(saveFailure: Option<Option<string>>) returns (config: AppConfig)
      modifies this
      ensures config == ConfigOf(old(uiState))
      ensures Normalized(config)
      ensures saveFailure.None? ==> uiState == old(uiState).(isLoading := false, message := Some(SAVED_MESSAGE))
      ensures saveFailure.Some? ==> uiState == old(uiState).(isLoading := false, message := Some(UserMessage(saveFailure.value)))
    {
      var current := uiState;
      uiState := uiState.(isLoading := true, message := None);
      config := ConfigOf(current);
      SavedIsNormalized(current);
      if saveFailure.None? {
        uiState := uiState.(isLoading := false, message := Some(SAVED_MESSAGE));
      } else {
        uiState := uiState.(isLoading := false, message := Some(UserMessage(saveFailure.value)));
      }
    }

    /** `recalcCustomDateRange`, read field by field as the handler does. */
    method RecalcCustomDateRange(parseDate: string -> Option<int>)
      modifies this
      ensures uiState == Recalculated(old(uiState), parseDate)
    {
      var state := uiState;
      var startDate := DayInput(state.customStartDate, parseDate);
      var endDate := DayInput(state.customEndDate, parseDate);
      if Unparseable(state.customStartDate, parseDate) {
        uiState := uiState.(dateRangeError := Some(ErrorMessage(InvalidFormat(START_FIELD))));
        return;
      }
      if Unparseable(state.customEndDate, parseDate) {
        uiState := uiState.(dateRangeError := Some(ErrorMessage(InvalidFormat(END_FIELD))));
        return;
      }
      var outcome := CustomDatesToUtcMillis(startDate, endDate);
      match outcome {
        case Ok(range) =>
          uiState := uiState.(dateRangeResult := range, dateRangeError := None);
        case Err(e) =>
          uiState := uiState.(dateRangeError := Some(UserMessage(Some(ErrorMessage(e)))));
      }
    }
  }
}
