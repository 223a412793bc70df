/** `DateRangeCalculatorJvm`: the rolling presets and custom calendar days
    turned into UTC millisecond bounds. A calendar day is its epoch-day
    number; its UTC midnight is that number times a day's milliseconds. */
module DateRanges {
  import opened Wrappers
  import opened Config

  const MINUTE_MILLIS: int := 60 * 1000
  const DAY_MILLIS: int := 24 * 60 * 60 * 1000

  datatype Preset = Last1D | Last7D | Last30D

  function PresetDays(p: Preset): nat {
    match p
    case Last1D => 1
    case Last7D => 7
    case Last30D => 30
  }

  /** `presetToUtcMillis`: the window of the last one, seven or thirty days
      ending now. */
  function PresetToUtcMillis(p: Preset, nowUtcMillis: int): (r: DateRange)
    ensures r.endMillisUtc == Some(nowUtcMillis)
    ensures r.startMillisUtc == Some(nowUtcMillis - PresetDays(p) * DAY_MILLIS)
    ensures forall m :: Admits(r, m) <==> nowUtcMillis - PresetDays(p) * DAY_MILLIS <= m < nowUtcMillis
  {
    DateRange(Some(nowUtcMillis - PresetDays(p) * 24 * 60 * 60 * 1000), Some(nowUtcMillis))
  }

  datatype DateRangeInputError = InvalidFormat(fieldName: string) | StartAfterEnd

  /** The message of each input error. */
  function ErrorMessage(e: DateRangeInputError): (m: string)
    ensures m != []
  {
    match e
    case InvalidFormat(fieldName) => fieldName + " 날짜 형식이 올바르지 않아요. YYYY-MM-DD 형식으로 입력해 주세요."
    case StartAfterEnd => "시작일이 종료일보다 늦어요. 날짜를 확인해 주세요."
  }

  /** The UTC midnight that starts a day, if there is a day. */
  function StartOfDay(day: Option<int>): Option<int> {
    if day.Some? then Some(day.value * DAY_MILLIS) else None
  }

  /** The UTC midnight after a day, if there is a day. */
  function StartOfNextDay(day: Option<int>): Option<int> {
    if day.Some? then Some((day.value + 1) * DAY_MILLIS) else None
  }

  /** `customDatesToUtcMillis` as written: it rejects a start only when its
      midnight lies after the midnight following the end day, so a start
      one day after the end passes. */
  function CustomDatesAsWritten(start: Option<int>, end: Option<int>): (r: Result<DateRange, DateRangeInputError>)
    ensures start.None? && end.None? ==> r == Ok(NO_RANGE)
    ensures r.Err? <==> (start.Some? && end.Some? && start.value > end.value + 1)
    ensures r.Ok? ==> r.value == DateRange(StartOfDay(start), StartOfNextDay(end))
  {
    if start.None? && end.None? then Ok(DateRange(None, None))
    else
      var startMillis := StartOfDay(start);
      var endExclusiveMillis := StartOfNextDay(end);
      if startMillis.Some? && endExclusiveMillis.Some? && startMillis.value > endExclusiveMillis.value then
        Err(StartAfterEnd)
      else
        Ok(DateRange(startMillis, endExclusiveMillis))
  }

  /** The as-written check lets a start day right after the end day
      through, and its range admits no instant at all. */
  lemma AsWrittenAcceptsStartAfterEnd(end: int)
    ensures var r := CustomDatesAsWritten(Some(end + 1), Some(end));
      && r == Ok(DateRange(Some((end + 1) * DAY_MILLIS), Some((end + 1) * DAY_MILLIS)))
      && forall m :: !Admits(r.value, m)
  {
  }

  /** Every range the as-written check returns with both bounds still has
      start <= end. */
  lemma AsWrittenOrdered(start: Option<int>, end: Option<int>)
    requires CustomDatesAsWritten(start, end).Ok?
    ensures var r := CustomDatesAsWritten(start, end).value;
      r.startMillisUtc.Some? && r.endMillisUtc.Some? ==> r.startMillisUtc.value <= r.endMillisUtc.value
  {
  }

  /** `customDatesToUtcMillis` with the check its error names: a start day
      later than the end day is refused. */
  function CustomDatesToUtcMillis(start: Option<int>, end: Option<int>): (r: Result<DateRange, DateRangeInputError>)
    ensures start.None? && end.None? ==> r == Ok(NO_RANGE)
    ensures r.Err? <==> (start.Some? && end.Some? && start.value > end.value)
    ensures r.Ok? ==> r.value == DateRange(StartOfDay(start), StartOfNextDay(end))
    ensures r.Ok? && start.Some? && end.Some? ==> r.value.startMillisUtc.value < r.value.endMillisUtc.value
  {
    if start.None? && end.None? then Ok(DateRange(None, None))
    else
      var startMillis := StartOfDay(start);
      var endExclusiveMillis := StartOfNextDay(end);
      if start.Some? && end.Some? && start.value > end.value then Err(StartAfterEnd)
      else Ok(DateRange(startMillis, endExclusiveMillis))
  }

  /** The corrected check differs from the written one on exactly the start
      day right after the end day. */
  lemma CorrectionIsNarrow(start: Option<int>, end: Option<int>)
    ensures CustomDatesToUtcMillis(start, end) != CustomDatesAsWritten(start, end) <==>
      (start.Some? && end.Some? && start.value == end.value + 1)
  {
  }

  /** The day of a UTC instant: its epoch milliseconds divided by a day,
      rounding down. */
  function DayOf(m: int): int {
    m / DAY_MILLIS
  }

  /** An instant is at or after a day's midnight exactly when its day is
      that day or later. */
  lemma {:induction false} MidnightBound(m: int, day: int)
    ensures day * DAY_MILLIS <= m <==> day <= DayOf(m)
  {
    var q := DayOf(m);
    assert m == q * DAY_MILLIS + m % DAY_MILLIS && 0 <= m % DAY_MILLIS < DAY_MILLIS;
    if day <= q {
      MulMonotone(day, q);
    } else {
      MulMonotone(q + 1, day);
    }
  }

  lemma MulMonotone(a: int, b: int)
    requires a <= b
    ensures a * DAY_MILLIS <= b * DAY_MILLIS
  {
    assert b * DAY_MILLIS - a * DAY_MILLIS == (b - a) * DAY_MILLIS;
  }

  /** A custom range is whole calendar days: an instant is admitted exactly
      when its UTC day lies between the given days, both included. */
  lemma CustomRangeDays(start: Option<int>, end: Option<int>, m: int)
    requires CustomDatesToUtcMillis(start, end).Ok?
    ensures Admits(CustomDatesToUtcMillis(start, end).value, m) <==>
      && (start.None? || start.value <= DayOf(m))
      && (end.None? || DayOf(m) <= end.value)
  {
    if start.Some? {
      MidnightBound(m, start.value);
    }
    if end.Some? {
      MidnightBound(m, end.value + 1);
    }
  }
}
