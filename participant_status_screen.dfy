/** The decisions behind the participant status screen: the coverage grade
    of one day under the sensor/health/survey switches, the at-risk test on
    a participant's three latest days, the per-category grades of the
    detail panel and the participant search.

    A participant's `dailySummaries` map is held as its list of entries,
    each a day number and that day's counts; the days of the list are
    distinct, as the keys of a map are. `LocalDate.now()` is the parameter
    `today`, a day number. */
module StatusScreen {
  import opened Wrappers
  import opened Text
  import opened Collections

  /** `CoverageStatus`. */
  datatype CoverageStatus = OK | PARTIAL | MISSING | UNKNOWN

  /** `DailyDataSummary`: one day's record counts per category. */
  datatype DailyDataSummary = DailyDataSummary(sensorRecordCount: int, healthRecordCount: int,
                                               surveyRecordCount: int)

  /** The screen's three category switches. */
  datatype Filters = Filters(showSensor: bool, showHealth: bool, showSurvey: bool)

  predicate AnyShown(f: Filters) {
    f.showSensor || f.showHealth || f.showSurvey
  }

  /** The sum of the counts of the categories switched on. */
  function ShownTotal(s: DailyDataSummary, f: Filters): int {
    (if f.showSensor then s.sensorRecordCount else 0)
    + (if f.showHealth then s.healthRecordCount else 0)
    + (if f.showSurvey then s.surveyRecordCount else 0)
  }

  // ------------------------------------------------------- one day's grade

  /** The grade of a day: unknown without a summary or with every category
      switched off; otherwise full above 100 records, partial above none,
      else missing. */
  function DailyStatus(summary: Option<DailyDataSummary>, f: Filters): (r: CoverageStatus)
    ensures r == UNKNOWN <==> summary.None? || !AnyShown(f)
    ensures summary.Some? && AnyShown(f) ==>
              (r == OK <==> ShownTotal(summary.value, f) > 100)
              && (r == PARTIAL <==> 0 < ShownTotal(summary.value, f) <= 100)
              && (r == MISSING <==> ShownTotal(summary.value, f) <= 0)
  {
    if summary.None? || !AnyShown(f) then UNKNOWN
    else
      var total := ShownTotal(summary.value, f);
      if total > 100 then OK else if total > 0 then PARTIAL else MISSING
  }

  /** `calculateDailyStatus`: the total is built up one switch at a time. */
  method CalculateDailyStatus(summary: Option<DailyDataSummary>, showSensor: bool,
                              showHealth: bool, showSurvey: bool)
    returns (r: CoverageStatus)
    ensures r == DailyStatus(summary, Filters(showSensor, showHealth, showSurvey))
  {
    if summary.None? {
      return UNKNOWN;
    }
    var s := summary.value;
    var total := 0;
    if showSensor {
      total := total + s.sensorRecordCount;
    }
    if showHealth {
      total := total + s.healthRecordCount;
    }
    if showSurvey {
      total := total + s.surveyRecordCount;
    }
    if !showSensor && !showHealth && !showSurvey {
      return UNKNOWN;
    }
    if total > 100 {
      r := OK;
    } else if total > 0 {
      r := PARTIAL;
    } else {
      r := MISSING;
    }
  }

  /** The order of the known grades: missing, partial, full. */
  function Rank(c: CoverageStatus): nat {
    match c
    case MISSING => 0
    case PARTIAL => 1
    case OK => 2
    case UNKNOWN => 0
  }

  /** `g` switches on every category `f` does, and maybe more. */
  predicate ShowsAtLeast(g: Filters, f: Filters) {
    (f.showSensor ==> g.showSensor) && (f.showHealth ==> g.showHealth)
    && (f.showSurvey ==> g.showSurvey)
  }

  predicate NonNegative(s: DailyDataSummary) {
    s.sensorRecordCount >= 0 && s.healthRecordCount >= 0 && s.surveyRecordCount >= 0
  }

  /** With counts that are never negative, switching more categories on
      never lowers a day's grade: a full day stays full and a partial day
      stays partial or becomes full. */
  lemma EnablingNeverLowers(s: DailyDataSummary, f: Filters, g: Filters)
    requires NonNegative(s) && ShowsAtLeast(g, f) && AnyShown(f)
    ensures DailyStatus(Some(s), g) != UNKNOWN
    ensures Rank(DailyStatus(Some(s), f)) <= Rank(DailyStatus(Some(s), g))
    ensures DailyStatus(Some(s), f) == OK ==> DailyStatus(Some(s), g) == OK
    ensures DailyStatus(Some(s), f) == PARTIAL ==> DailyStatus(Some(s), g) in {OK, PARTIAL}
  {
    assert ShownTotal(s, f) <= ShownTotal(s, g);
  }

  /** With a negative count the guarantee is lost: switching health on next
      to a full sensor day can make the day missing. */
  lemma NegativeCountCanLower()
    ensures DailyStatus(Some(DailyDataSummary(101, -101, 0)), Filters(true, false, false)) == OK
    ensures DailyStatus(Some(DailyDataSummary(101, -101, 0)), Filters(true, true, false)) == MISSING
  {
  }

  // ------------------------------------------------------------- at risk

  /** One entry of `dailySummaries`: a day number and that day's counts. */
  datatype DayEntry = DayEntry(date: int, summary: DailyDataSummary)

  /** The part of `ParticipantDataStatus` the screen reads. */
  datatype ParticipantDays = ParticipantDays(participantId: string, dailySummaries: seq<DayEntry>)

  /** No day appears twice, as in a map keyed by day. */
  predicate DistinctDates(es: seq<DayEntry>) {
    forall i, j :: 0 <= i < j < |es| ==> es[i].date != es[j].date
  }

  predicate DateLe(a: DayEntry, b: DayEntry) {
    a.date <= b.date
  }

  lemma DateLeTotal()
    ensures IsTotalPreorder(DateLe)
  {
  }

  /** `entries.sortedBy { it.key }`. */
  function ByDate(es: seq<DayEntry>): (r: seq<DayEntry>)
    ensures multiset(r) == multiset(es)
    ensures SortedBy(r, DateLe)
  {
    DateLeTotal();
    SortBy(es, DateLe)
  }

  /** The recent days: the last three of the sorted entries, or all of them
      when there are at most three. */
  function Recent(es: seq<DayEntry>): seq<DayEntry> {
    var sorted := ByDate(es);
    if |sorted| > 3 then sorted[|sorted| - 3..] else sorted
  }

  /** A participant is at risk when one of its recent days is missing under
      the current switches. */
  predicate AtRisk(p: ParticipantDays, f: Filters) {
    exists e :: e in Recent(p.dailySummaries) && DailyStatus(Some(e.summary), f) == MISSING
  }

  /** Three entries are dated after day `d`. */
  ghost predicate ThreeLater(es: seq<DayEntry>, d: int) {
    exists a, b, c :: LaterAt(es, d, a, b, c)
  }

  /** The entries at `a`, `b` and `c` are dated after day `d`, in order. */
  predicate LaterAt(es: seq<DayEntry>, d: int, a: int, b: int, c: int) {
    0 <= a < |es| && 0 <= b < |es| && 0 <= c < |es| && d < es[a].date < es[b].date < es[c].date
  }

  /** Entries with the same members have the same later days. */
  lemma ThreeLaterSameMembers(es: seq<DayEntry>, r: seq<DayEntry>, d: int)
    requires forall e :: e in r ==> e in es
    ensures ThreeLater(r, d) ==> ThreeLater(es, d)
  {
    if ThreeLater(r, d) {
      var a, b, c :| LaterAt(r, d, a, b, c);
      var x, y, z := r[a], r[b], r[c];
      assert x in es && y in es && z in es;
      var a' :| 0 <= a' < |es| && es[a'] == x;
      var b' :| 0 <= b' < |es| && es[b'] == y;
      var c' :| 0 <= c' < |es| && es[c'] == z;
      assert LaterAt(es, d, a', b', c');
    }
  }

  /** Days strictly increase along the sequence. */
  predicate Increasing(r: seq<DayEntry>) {
    forall i, j :: 0 <= i < j < |r| ==> r[i].date < r[j].date
  }

  /** Sorting entries with distinct days orders them strictly by day. */
  lemma ByDateIncreasing(es: seq<DayEntry>)
    requires DistinctDates(es)
    ensures Increasing(ByDate(es))
  {
    var r := ByDate(es);
    PermutationNoDuplicates(es, r);
    forall i, j | 0 <= i < j < |r| ensures r[i].date != r[j].date {
      assert r[i] in multiset(es) && r[j] in multiset(es);
    }
  }

  /** The sorted entries are the entries. */
  lemma ByDateMembers(es: seq<DayEntry>)
    ensures forall e :: e in ByDate(es) <==> e in es
  {
    forall e ensures e in ByDate(es) <==> e in es {
      assert e in multiset(ByDate(es)) <==> e in multiset(es);
    }
  }

  /** The recent days are the sorted entries from three before the end. */
  lemma RecentPositions(es: seq<DayEntry>)
    ensures forall p :: 0 <= p < |ByDate(es)| && |ByDate(es)| <= p + 3 ==> ByDate(es)[p] in Recent(es)
    ensures forall e :: e in Recent(es) ==>
              exists p :: 0 <= p < |ByDate(es)| && |ByDate(es)| <= p + 3 && ByDate(es)[p] == e
  {
    var r := ByDate(es);
    forall p | 0 <= p < |r| && |r| <= p + 3 ensures r[p] in Recent(es) {
      if |r| > 3 {
        assert Recent(es)[p - (|r| - 3)] == r[p];
      }
    }
    forall e | e in Recent(es)
      ensures exists p :: 0 <= p < |r| && |r| <= p + 3 && r[p] == e
    {
      var k :| 0 <= k < |Recent(es)| && Recent(es)[k] == e;
      var p := if |r| > 3 then |r| - 3 + k else k;
      assert r[p] == e;
    }
  }

  /** In increasing days, a later day sits further on. */
  lemma LaterFurther(r: seq<DayEntry>, p: nat, a: nat)
    requires Increasing(r) && p < |r| && a < |r|
    ensures r[p].date < r[a].date ==> p < a
  {
    if a < p {
      assert r[a].date < r[p].date;
    }
  }

  /** In increasing days, nothing has three later days within the last
      three positions. */
  lemma NoThreeAfter(r: seq<DayEntry>, p: nat)
    requires Increasing(r) && p < |r| <= p + 3
    ensures !ThreeLater(r, r[p].date)
  {
    forall a, b, c ensures !LaterAt(r, r[p].date, a, b, c) {
      if 0 <= a < |r| && 0 <= b < |r| && 0 <= c < |r| {
        LaterFurther(r, p, a);
        LaterFurther(r, a, b);
        LaterFurther(r, b, c);
      }
    }
  }

  /** No recent day has three days after it. */
  lemma RecentHasNoThreeLater(es: seq<DayEntry>, e: DayEntry)
    requires DistinctDates(es)
    ensures e in Recent(es) ==> e in es && !ThreeLater(es, e.date)
  {
    var r := ByDate(es);
    RecentPositions(es);
    ByDateMembers(es);
    if e in Recent(es) {
      var p :| 0 <= p < |r| && |r| <= p + 3 && r[p] == e;
      ByDateIncreasing(es);
      NoThreeAfter(r, p);
      ThreeLaterSameMembers(r, es, e.date);
    }
  }

  /** Every older day has three days after it. */
  lemma OlderHasThreeLater(es: seq<DayEntry>, e: DayEntry)
    requires DistinctDates(es)
    ensures e in es && e !in Recent(es) ==> ThreeLater(es, e.date)
  {
    var r := ByDate(es);
    RecentPositions(es);
    ByDateMembers(es);
    if e in es && e !in Recent(es) {
      var p :| 0 <= p < |r| && r[p] == e;
      assert p + 3 < |r|;
      ByDateIncreasing(es);
      assert LaterAt(r, e.date, p + 1, p + 2, p + 3);
      ThreeLaterSameMembers(es, r, e.date);
    }
  }

  /** The recent days are exactly the entries with fewer than three days
      after them. */
  lemma RecentIsLatestThree(es: seq<DayEntry>, e: DayEntry)
    requires DistinctDates(es)
    ensures e in Recent(es) <==> e in es && !ThreeLater(es, e.date)
  {
    RecentHasNoThreeLater(es, e);
    OlderHasThreeLater(es, e);
  }

  /** A participant is at risk exactly when one of its three latest days is
      missing under the current switches. */
  lemma AtRiskIff(p: ParticipantDays, f: Filters)
    requires DistinctDates(p.dailySummaries)
    ensures AtRisk(p, f) <==>
              exists e :: e in p.dailySummaries && !ThreeLater(p.dailySummaries, e.date)
                          && DailyStatus(Some(e.summary), f) == MISSING
  {
    forall e ensures e in Recent(p.dailySummaries) <==>
                     e in p.dailySummaries && !ThreeLater(p.dailySummaries, e.date)
    {
      RecentIsLatestThree(p.dailySummaries, e);
    }
  }

  /** With every category switched off no day is missing, so nobody is at
      risk. */
  lemma NoRiskWithEverythingOff(p: ParticipantDays, f: Filters)
    requires !AnyShown(f)
    ensures !AtRisk(p, f)
  {
  }

  /** `participants.count { … }`: how many participants are at risk. */
  function AtRiskCount(ps: seq<ParticipantDays>, f: Filters): (n: nat)
    ensures n <= |ps|
    ensures n == |Filter(ps, p => AtRisk(p, f))|
    ensures n == 0 <==> forall i :: 0 <= i < |ps| ==> !AtRisk(ps[i], f)
  {
    if ps == [] then 0
    else (if AtRisk(ps[0], f) then 1 else 0) + AtRiskCount(ps[1..], f)
  }

  // ---------------------------------------------- per-category breakdown

  datatype Category = Sensor | Health | Survey

  /** `s?.<category>RecordCount ?: 0`. */
  function CategoryCount(c: Category, s: Option<DailyDataSummary>): int {
    match s
    case None => 0
    case Some(v) =>
      match c
      case Sensor => v.sensorRecordCount
      case Health => v.healthRecordCount
      case Survey => v.surveyRecordCount
  }

  /** The count above which a category's day is full. */
  function FullAbove(c: Category): int {
    match c
    case Sensor => 50
    case Health => 10
    case Survey => 0
  }

  /** The grade of one category on one day of the detail panel. */
  function CategoryStatus(c: Category, s: Option<DailyDataSummary>): (r: CoverageStatus)
    ensures r != UNKNOWN
  {
    match c
    case Sensor =>
      if s.Some? && s.value.sensorRecordCount > 50 then OK
      else if CategoryCount(Sensor, s) > 0 then PARTIAL
      else MISSING
    case Health =>
      if s.Some? && s.value.healthRecordCount > 10 then OK
      else if CategoryCount(Health, s) > 0 then PARTIAL
      else MISSING
    case Survey =>
      if s.Some? && s.value.surveyRecordCount > 0 then OK else MISSING
  }

  /** A category is full above its threshold, missing at or below zero and
      partial in between; survey days are never partial, and a day without
      a summary is missing. */
  lemma CategoryThresholds(c: Category, s: Option<DailyDataSummary>)
    ensures CategoryStatus(c, s) == OK <==> CategoryCount(c, s) > FullAbove(c)
    ensures CategoryStatus(c, s) == MISSING <==> CategoryCount(c, s) <= 0
    ensures CategoryStatus(c, s) == PARTIAL <==> 0 < CategoryCount(c, s) <= FullAbove(c)
    ensures c == Survey ==> CategoryStatus(c, s) != PARTIAL
    ensures s.None? ==> CategoryStatus(c, s) == MISSING
  {
  }

  /** More records never lower a category's grade. */
  lemma CategoryMonotone(c: Category, s: Option<DailyDataSummary>, t: Option<DailyDataSummary>)
    requires CategoryCount(c, s) <= CategoryCount(c, t)
    ensures Rank(CategoryStatus(c, s)) <= Rank(CategoryStatus(c, t))
  {
    CategoryThresholds(c, s);
    CategoryThresholds(c, t);
  }

  /** `dailySummaries[date]`. */
  function SummaryOn(es: seq<DayEntry>, date: int): (r: Option<DailyDataSummary>)
    ensures r.Some? ==> DayEntry(date, r.value) in es
    ensures r.None? ==> forall i :: 0 <= i < |es| ==> es[i].date != date
  {
    if es == [] then None
    else if es[0].date == date then Some(es[0].summary)
    else SummaryOn(es[1..], date)
  }

  /** With distinct days the lookup finds the one entry of that day. */
  lemma SummaryOnEntry(es: seq<DayEntry>, e: DayEntry)
    requires DistinctDates(es) && e in es
    ensures SummaryOn(es, e.date) == Some(e.summary)
  {
    var r := SummaryOn(es, e.date);
    var i :| 0 <= i < |es| && es[i] == e;
    var j :| 0 <= j < |es| && es[j] == DayEntry(e.date, r.value);
    assert i == j;
  }

  /** The seven columns of the breakdown: the six days before `today`,
      oldest first, then `today`. */
  function LastSevenDays(today: int): (r: seq<int>)
    ensures |r| == 7 && r[0] == today - 6 && r[6] == today
    ensures forall i, j :: 0 <= i < j < 7 ==> r[i] < r[j]
  {
    seq(7, k => today - 6 + k)
  }

  // -------------------------------------------------------------- search

  /** The participant list under the search box: everyone while the query
      is blank, otherwise those whose id contains the query ignoring case. */
  function FilteredParticipants(ps: seq<ParticipantDays>, query: string): (r: seq<ParticipantDays>)
    ensures |r| <= |ps|
    ensures IsBlank(query) ==> r == ps
    ensures !IsBlank(query) ==>
              forall p :: p in r <==> p in ps && ContainsIgnoreCase(p.participantId, query)
  {
    if IsBlank(query) then ps
    else Filter(ps, (p: ParticipantDays) => ContainsIgnoreCase(p.participantId, query))
  }

  /** A participant whose id starts with the query, ignoring case, is kept. */
  lemma PrefixMatchKept(ps: seq<ParticipantDays>, p: ParticipantDays, query: string)
    requires p in ps && StartsWith(Lower(p.participantId), Lower(query))
    ensures p in FilteredParticipants(ps, query)
  {
    ContainsPrefix(Lower(p.participantId), Lower(query));
  }
}
