/** Which publications a corpus load selects, and why the ones it leaves out by date have expired. */
module Corpus {
  import opened Basics
  import opened Calendar
  import Us = UsLegalStatus
  import Ep = EpLegalStatus

  datatype CorpusScope = CorpusScope(
    asOf: Day,
    usKinds: set<string>,
    epKinds: set<string>,
    statutoryYears: int,
    usMarginYears: int,
    epMarginYears: int)

  /** None where the original raises ValueError. */
  function Cutoff(scope: CorpusScope, jurisdiction: string): Option<Day> {
    var margin := if jurisdiction == "US" then scope.usMarginYears else scope.epMarginYears;
    AddYears(scope.asOf, -(scope.statutoryYears + margin))
  }

  // ----- dates as integers

  function Yyyymmdd(d: Day): int {
    d.year * 10000 + d.month * 100 + d.day
  }

  /** The date an integer stands for; 0 and impossible dates are unknown. */
  function DateOf(number: int): Option<Day> {
    if number == 0 then None else MakeDate(number / 10000, number / 100 % 100, number % 100)
  }

  lemma YyyymmddKeepsOrder(a: Day, b: Day)
    ensures Before(a, b) <==> Yyyymmdd(a) < Yyyymmdd(b)
    ensures a == b <==> Yyyymmdd(a) == Yyyymmdd(b)
  {
  }

  lemma DateOfInvertsYyyymmdd(d: Day)
    ensures DateOf(Yyyymmdd(d)) == Some(d)
  {
    var n := Yyyymmdd(d);
    assert n / 10000 == d.year && n / 100 == d.year * 100 + d.month && n % 100 == d.day;
  }

  lemma YyyymmddInvertsDateOf(number: int)
    requires DateOf(number).Some?
    ensures Yyyymmdd(DateOf(number).value) == number
  {
    assert number / 100 == number / 10000 * 100 + number / 100 % 100;
  }

  // ----- the query's filter

  datatype Row = Row(country: string, kind: string, filingDate: int, grantDate: int, inClass: bool)

  predicate FiledFrom(row: Row, cutoff: Day) {
    row.filingDate >= Yyyymmdd(cutoff)
  }

  /** The WHERE clause; None where building the query raises. */
  function Selected(scope: CorpusScope, row: Row): Option<bool> {
    match (Cutoff(scope, "US"), Cutoff(scope, "EP"))
    case (Some(us), Some(ep)) =>
      Some(row.grantDate > 0
           && ((row.country == "US" && row.kind in scope.usKinds && FiledFrom(row, us))
               || (row.country == "EP" && row.kind in scope.epKinds && FiledFrom(row, ep)))
           && row.inClass)
    case _ => None
  }

  /** The row meets every condition but the filing date. */
  predicate OnlyDateFails(scope: CorpusScope, row: Row) {
    && Selected(scope, row) == Some(false)
    && row.grantDate > 0 && row.inClass
    && ((row.country == "US" && row.kind in scope.usKinds) || (row.country == "EP" && row.kind in scope.epKinds))
  }

  lemma ExcludedFiledBeforeCutoff(scope: CorpusScope, row: Row)
    requires OnlyDateFails(scope, row) && DateOf(row.filingDate).Some?
    ensures Cutoff(scope, row.country).Some?
    ensures Before(DateOf(row.filingDate).value, Cutoff(scope, row.country).value)
  {
    YyyymmddInvertsDateOf(row.filingDate);
    YyyymmddKeepsOrder(DateOf(row.filingDate).value, Cutoff(scope, row.country).value);
  }

  /** A wider margin never moves the cutoff later. */
  lemma WiderMarginCutsEarlier(asOf: Day, years: int, more: int)
    requires years <= more && AddYears(asOf, -more).Some? && years >= 0
    ensures AddYears(asOf, -years).Some?
    ensures AtMost(AddYears(asOf, -more).value, AddYears(asOf, -years).value)
  {
    AddYearsClips(asOf, -years);
    AddYearsClips(asOf, -more);
  }

  lemma BeforeAtMostIsBefore(a: Date, b: Date, c: Date)
    requires Before(a, b) && AtMost(b, c)
    ensures Before(a, c)
  {
  }

  /** A European row left out for its (known) filing date alone is assessed as expired, whatever its events say. */
  lemma ExcludedEpIsExpired(scope: CorpusScope, row: Row, events: seq<Ep.LegalEvent>)
    requires row.country == "EP" && OnlyDateFails(scope, row) && DateOf(row.filingDate).Some?
    requires scope.statutoryYears == 20 && scope.epMarginYears >= 0
    ensures Ep.Assess(events, DateOf(row.filingDate).value, scope.asOf).Some?
    ensures Ep.Assess(events, DateOf(row.filingDate).value, scope.asOf).value.status == Ep.Expired
  {
    var filed := DateOf(row.filingDate).value;
    ExcludedFiledBeforeCutoff(scope, row);
    WiderMarginCutsEarlier(scope.asOf, 20, 20 + scope.epMarginYears);
    BeforeAtMostIsBefore(filed, Cutoff(scope, "EP").value, AddYears(scope.asOf, -20).value);
    BeforeCutoffEndsBefore(filed, scope.asOf, 20);
  }

  /** The term counted from `start` with up to 1825 days of adjustment ends before the analysis date. */
  lemma EarlyStartHasExpired(start: Us.Candidate, filed: Day, adjustment: Option<int>, asOf: Day)
    requires AddYears(asOf, -25).Some? && Before(filed, AddYears(asOf, -25).value) && AtMost(start.start, filed)
    requires adjustment.Some? ==> 0 <= adjustment.value <= 1825
    ensures Us.TermOf(Some(start), adjustment).term.Some?
    ensures Before(Us.TermOf(Some(start), adjustment).term.value.expiry, asOf)
  {
    BeforeCutoffEndsBefore(filed, asOf, 25);
    AddYearsClips(start.start, 25);
    AddYearsIsMonotone(start.start, filed, 25);
    FiveYearsAtLeast(start.start, 20);
    var end := AddYears(start.start, 25).value;
    assert Before(end, asOf);
    OrdinalOrders(end, asOf);
    OrdinalRange(asOf);
    var twenty := AddYears(start.start, 20).value;
    OrdinalRange(twenty);
    var days := if adjustment.Some? then adjustment.value else 0;
    assert AddDays(twenty, days).Some?;
    OrdinalOrders(AddDays(twenty, days).value, asOf);
  }

  /**
   * A US row left out for its (known) filing date alone: with an adjustment of at most 1825 days the
   * computed expiry lies before the analysis date, whatever parents the record names.
   */
  lemma ExcludedUsHasExpired(scope: CorpusScope, row: Row, r: Us.UsRecord, read: Us.DateReader)
    requires row.country == "US" && OnlyDateFails(scope, row) && DateOf(row.filingDate).Some?
    requires scope.statutoryYears == 20 && scope.usMarginYears >= 5
    requires Us.ReadDate(read, Us.Meta(r, "filingDate")) == DateOf(row.filingDate)
    requires Us.Adjustment(r).Some? ==> 0 <= Us.Adjustment(r).value <= 1825
    ensures Us.TermOf(Us.TermStart(r, read), Us.Adjustment(r)).term.Some?
    ensures Before(Us.TermOf(Us.TermStart(r, read), Us.Adjustment(r)).term.value.expiry, scope.asOf)
  {
    var filed := DateOf(row.filingDate).value;
    ExcludedFiledBeforeCutoff(scope, row);
    WiderMarginCutsEarlier(scope.asOf, 25, 20 + scope.usMarginYears);
    BeforeAtMostIsBefore(filed, Cutoff(scope, "US").value, AddYears(scope.asOf, -25).value);
    assert Us.Candidate(filed, Us.OwnFiling) in Us.Candidates(r, read);
    EarlyStartHasExpired(Us.TermStart(r, read).value, filed, Us.Adjustment(r), scope.asOf);
  }

  /** So a plain granted patent with a known adjustment is assessed as expired. */
  lemma ExcludedUsIsAssessedExpired(scope: CorpusScope, row: Row, r: Us.UsRecord, read: Us.DateReader, number: string)
    requires row.country == "US" && OnlyDateFails(scope, row) && DateOf(row.filingDate).Some?
    requires scope.statutoryYears == 20 && scope.usMarginYears >= 5
    requires Us.ReadDate(read, Us.Meta(r, "filingDate")) == DateOf(row.filingDate)
    requires Us.Adjustment(r).Some? && 0 <= Us.Adjustment(r).value <= 1825
    requires Us.ReadDate(read, Us.Meta(r, "grantDate")).Some?
    requires Us.StatusText(r) == Us.IN_FORCE_STATUS && !Us.HasCode(Us.Events(r), Us.EXPIRY_EVENT)
    requires !Us.IsReissue(r)
    ensures Us.Assess(r, read, number, scope.asOf).Some?
    ensures Us.Assess(r, read, number, scope.asOf).value.status == Us.Expired
  {
    ExcludedUsHasExpired(scope, row, r, read);
    Us.PatentedCaseIsNotLapsed();
  }

  /** An unknown filing date is no protection: such a row is left out although nothing says it has expired. */
  lemma UnknownFilingDateIsLeftOut(scope: CorpusScope, row: Row)
    requires row.filingDate == 0 && Selected(scope, row).Some?
    ensures Selected(scope, row) == Some(false) && DateOf(row.filingDate) == None
  {
  }
}
