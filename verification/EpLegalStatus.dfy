/** European legal status: folding a publication's legal events into one status per contracting state. */
module EpLegalStatus {
  import opened Basics
  import opened Calendar
  import opened Trimming

  /** `fields` are the labelled payload lines of the event. */
  datatype LegalEvent = LegalEvent(
    code: string,
    description: string,
    influence: string,
    gazetteDate: Option<Day>,
    fields: map<string, string>)

  datatype CountryStatus = CountryStatus(
    lapsedOn: Option<Day>,
    lapseReason: string,
    reinstatedOn: Option<Day>,
    lastFeeYear: Option<nat>,
    lastFeePaidOn: Option<Day>)
  {
    predicate LapseInEffect() {
      lapsedOn.Some? && (reinstatedOn.None? || Before(reinstatedOn.value, lapsedOn.value))
    }
  }

  datatype Status = PresumedInForce | Lapsed | Expired | Undetermined

  datatype Reason =
    | UnmappedNegative(codes: set<string>)
    | UnitaryEffect
    | NoDesignatedStates
    | NoNationalEvents(states: seq<string>)

  datatype Evidence = Evidence(code: string, description: string, date: Option<Day>, fields: map<string, string>)

  datatype Assessment = Assessment(
    status: Status,
    expiry: Day,
    countries: map<string, CountryStatus>,
    evidence: seq<Evidence>,
    reasons: seq<Reason>)

  const STATUTORY_YEARS := 20
  const REINSTATEMENT := "PGRI"
  const FEE := "PGFP"
  const DESIGNATION := "AK"
  const GRANT_KINDS := {"B1", "B2", "B3"}

  // ----- reading one event

  function FieldOf(e: LegalEvent, name: string): string {
    if name in e.fields then e.fields[name] else ""
  }

  predicate IsUpper(c: char) {
    'A' <= c <= 'Z'
  }

  predicate IsDigit(c: char) {
    '0' <= c <= '9'
  }

  /** The state the event names, "" if none. */
  function Country(e: LegalEvent): string {
    var named := FieldOf(e, "Ref Country Code");
    if named != "" then
      var stripped := Strip(named);
      stripped[..Min(2, |stripped|)]
    else if |e.description| >= 3 && IsStateCode(e.description[..2]) && e.description[2] == ':' then
      e.description[..2]
    else ""
  }

  function DigitsOf(text: string): string {
    if text == "" then ""
    else if IsDigit(text[0]) then [text[0]] + DigitsOf(text[1..])
    else DigitsOf(text[1..])
  }

  function Number(digits: string): nat {
    if digits == "" then 0
    else 10 * Number(digits[..|digits| - 1])
         + (if IsDigit(digits[|digits| - 1]) then digits[|digits| - 1] as int - '0' as int else 0)
  }

  /** A date written with its digits in the order year, month, day; fewer than seven digits are no date. */
  function ReadDigitsDate(text: string): Option<Day> {
    var all := DigitsOf(text);
    var digits := all[..Min(8, |all|)];
    if |digits| < 7 then None
    else MakeDate(Number(digits[..4]), Number(digits[4..6]), Number(digits[6..]))
  }

  function EffectiveDate(e: LegalEvent): Option<Day> {
    var stated := ReadDigitsDate(FieldOf(e, "Effective DATE"));
    if stated.Some? then stated else e.gazetteDate
  }

  predicate IsNegative(e: LegalEvent) {
    Strip(e.influence) == "-"
  }

  /** Whether the event had taken effect by the analysis date; undated events count. */
  predicate InEffect(e: LegalEvent, asOf: Day) {
    EffectiveDate(e).None? || AtMost(EffectiveDate(e).value, asOf)
  }

  predicate IsUnitary(e: LegalEvent) {
    |e.code| >= 2 && e.code[0] == 'U' && forall i :: 1 <= i < |e.code| ==> IsDigit(e.code[i])
  }

  predicate IsReinstatement(e: LegalEvent) {
    e.code == REINSTATEMENT
  }

  /** A negative event that is neither a reinstatement nor a fee payment. */
  predicate IsLapse(e: LegalEvent) {
    e.code != REINSTATEMENT && e.code != FEE && IsNegative(e)
  }

  // ----- the fold over events

  datatype Tables = Tables(
    lapse: map<string, (Option<Day>, string)>,
    reinstated: map<string, Option<Day>>,
    fee: map<string, (Option<nat>, Option<Day>)>)

  function LaterOf(event: Option<Day>, current: Option<Day>): bool {
    event.Some? && (current.None? || Before(current.value, event.value))
  }

  function FeeYear(e: LegalEvent): Option<nat> {
    var digits := DigitsOf(FieldOf(e, "Year of Fee Payment"));
    if digits == "" then None else Some(Number(digits))
  }

  function OrZero(year: Option<nat>): nat {
    if year.Some? then year.value else 0
  }

  /** What one event asks of the tables. */
  datatype Move =
    | NoMove
    | Reinstate(state: string, on: Option<Day>)
    | PayFee(state: string, year: Option<nat>, paid: Option<Day>)
    | Lapse(state: string, on: Option<Day>, text: string)

  function MoveOf(e: LegalEvent, asOf: Day): Move {
    var c, date := Country(e), EffectiveDate(e);
    if c == "" || !InEffect(e, asOf) then NoMove
    else if IsReinstatement(e) then Reinstate(c, date)
    else if e.code == FEE then
      var paid := ReadDigitsDate(FieldOf(e, "Payment DATE"));
      PayFee(c, FeeYear(e), if paid.Some? then paid else e.gazetteDate)
    else if IsNegative(e) then
      var text := FieldOf(e, "Free Format Text");
      Lapse(c, date, if text != "" then text else e.description)
    else NoMove
  }

  function Apply(t: Tables, m: Move): Tables {
    match m
    case NoMove => t
    case Reinstate(c, on) =>
      if c !in t.reinstated || t.reinstated[c].None? || LaterOf(on, t.reinstated[c]) then
        t.(reinstated := t.reinstated[c := on])
      else t
    case PayFee(c, year, paid) =>
      if c !in t.fee || OrZero(year) > OrZero(t.fee[c].0) then t.(fee := t.fee[c := (year, paid)]) else t
    case Lapse(c, on, text) =>
      if c !in t.lapse || LaterOf(on, t.lapse[c].0) then t.(lapse := t.lapse[c := (on, text)]) else t
  }

  function Step(t: Tables, e: LegalEvent, asOf: Day): Tables {
    Apply(t, MoveOf(e, asOf))
  }

  const NO_TABLES := Tables(map[], map[], map[])

  function Fold(events: seq<LegalEvent>, asOf: Day): Tables {
    if events == [] then NO_TABLES
    else Step(Fold(events[..|events| - 1], asOf), events[|events| - 1], asOf)
  }

  function StatusOf(t: Tables, c: string): CountryStatus {
    CountryStatus(
      if c in t.lapse then t.lapse[c].0 else None,
      if c in t.lapse then t.lapse[c].1 else "",
      if c in t.reinstated then t.reinstated[c] else None,
      if c in t.fee then t.fee[c].0 else None,
      if c in t.fee then t.fee[c].1 else None)
  }

  function Statuses(t: Tables): map<string, CountryStatus> {
    map c | c in t.lapse.Keys + t.reinstated.Keys + t.fee.Keys :: StatusOf(t, c)
  }

  /** The three tables of `_country_statuses` while the events are read. */
  class EventTables {
    var lapse: map<string, (Option<Day>, string)>
    var reinstated: map<string, Option<Day>>
    var fee: map<string, (Option<nat>, Option<Day>)>

    ghost function Contents(): Tables
      reads this
    {
      Tables(lapse, reinstated, fee)
    }

    constructor ()
      ensures Contents() == NO_TABLES
    {
      lapse, reinstated, fee := map[], map[], map[];
    }

    method Take(event: LegalEvent, asOf: Day)
      modifies this
      ensures Contents() == Step(old(Contents()), event, asOf)
    {
      var country, date := Country(event), EffectiveDate(event);
      ghost var move := MoveOf(event, asOf);
      if country == "" || !InEffect(event, asOf) { return; }
      if event.code == REINSTATEMENT {
        assert move == Reinstate(country, date);
        if country !in reinstated || reinstated[country].None? || LaterOf(date, reinstated[country]) {
          reinstated := reinstated[country := date];
        }
      } else if event.code == FEE {
        var year, paid := FeeYear(event), ReadDigitsDate(FieldOf(event, "Payment DATE"));
        assert move == PayFee(country, year, if paid.Some? then paid else event.gazetteDate);
        if country !in fee || OrZero(year) > OrZero(fee[country].0) {
          fee := fee[country := (year, if paid.Some? then paid else event.gazetteDate)];
        }
      } else if IsNegative(event) {
        var text := FieldOf(event, "Free Format Text");
        if country !in lapse || LaterOf(date, lapse[country].0) {
          lapse := lapse[country := (date, if text != "" then text else event.description)];
        }
      }
    }
  }

  method CountryStatuses(events: seq<LegalEvent>, asOf: Day) returns (statuses: map<string, CountryStatus>)
    ensures statuses == Statuses(Fold(events, asOf))
  {
    var tables := new EventTables();
    for i := 0 to |events|
      invariant fresh(tables) && tables.Contents() == Fold(events[..i], asOf)
    {
      assert events[..i + 1][..i] == events[..i];
      tables.Take(events[i], asOf);
    }
    assert events[..|events|] == events;
    statuses := Statuses(Tables(tables.lapse, tables.reinstated, tables.fee));
  }

  // ----- designated states

  /** `text.split()` */
  function Words(text: string): seq<string> {
    SplitWords(text, "")
  }

  function SplitWords(text: string, word: string): seq<string> {
    if text == "" then (if word == "" then [] else [word])
    else if IsSpace(text[0]) then (if word == "" then [] else [word]) + SplitWords(text[1..], "")
    else SplitWords(text[1..], word + [text[0]])
  }

  predicate IsStateCode(word: string) {
    |word| == 2 && IsUpper(word[0]) && IsUpper(word[1])
  }

  function StateCodes(words: seq<string>): seq<string> {
    if words == [] then []
    else if IsStateCode(words[0]) then [words[0]] + StateCodes(words[1..])
    else StateCodes(words[1..])
  }

  /** The states a designation event of the granted document lists. */
  function ListedStates(e: LegalEvent): seq<string> {
    if e.code == DESIGNATION && Strip(FieldOf(e, "Kind Code of Ref Document")) in GRANT_KINDS then
      StateCodes(Words(FieldOf(e, "Designated State(s)")))
    else []
  }

  /** `before` with the new entries of `more` appended, each once. */
  function AppendNew(before: seq<string>, more: seq<string>): seq<string>
    decreases more
  {
    if more == [] then before
    else AppendNew(if more[0] in before then before else before + [more[0]], more[1..])
  }

  function Designated(events: seq<LegalEvent>): seq<string> {
    if events == [] then [] else AppendNew(Designated(events[..|events| - 1]), ListedStates(events[|events| - 1]))
  }

  method DesignatedAtGrant(events: seq<LegalEvent>) returns (states: seq<string>)
    ensures states == Designated(events)
  {
    states := [];
    for i := 0 to |events|
      invariant states == Designated(events[..i])
    {
      assert events[..i + 1][..i] == events[..i];
      states := AppendNew(states, ListedStates(events[i]));
    }
    assert events[..|events|] == events;
  }

  // ----- the assessment

  predicate IsUnknownNegative(e: LegalEvent, asOf: Day) {
    IsNegative(e) && Country(e) == "" && InEffect(e, asOf)
  }

  predicate HasUnitary(events: seq<LegalEvent>) {
    exists e :: e in events && IsUnitary(e)
  }

  function UnknownNegatives(events: seq<LegalEvent>, asOf: Day): set<string> {
    set e | e in events && IsUnknownNegative(e, asOf) :: e.code
  }

  predicate IsEvidence(e: LegalEvent) {
    Country(e) != "" || IsNegative(e) || (e.code != "" && e.code[0] == 'U') || e.code == DESIGNATION
  }

  function EvidenceOf(e: LegalEvent): seq<Evidence> {
    if IsEvidence(e) then [Evidence(e.code, e.description, EffectiveDate(e), e.fields)] else []
  }

  function EvidenceFrom(events: seq<LegalEvent>): seq<Evidence> {
    FlatMap(events, EvidenceOf)
  }

  predicate Dead(countries: map<string, CountryStatus>, state: string) {
    state in countries && countries[state].LapseInEffect()
  }

  /** The designated states without an entry, in the order they are listed. */
  function WithoutEntry(states: seq<string>, countries: map<string, CountryStatus>): seq<string> {
    if states == [] then []
    else if states[0] in countries then WithoutEntry(states[1..], countries)
    else [states[0]] + WithoutEntry(states[1..], countries)
  }

  function Decide(
      events: seq<LegalEvent>, countries: map<string, CountryStatus>, expiry: Day, asOf: Day): (Status, seq<Reason>) {
    var designated := Designated(events);
    if Before(expiry, asOf) then (Expired, [])
    else if UnknownNegatives(events, asOf) != {} then (Undetermined, [UnmappedNegative(UnknownNegatives(events, asOf))])
    else if HasUnitary(events) then (PresumedInForce, [UnitaryEffect])
    else if designated == [] then (Undetermined, [NoDesignatedStates])
    else if forall s :: s in designated ==> Dead(countries, s) then (Lapsed, [])
    else
      var unseen := WithoutEntry(designated, countries);
      (PresumedInForce, if unseen == [] then [] else [NoNationalEvents(unseen)])
  }

  /** None where the term runs past the last date there is. */
  function Assess(events: seq<LegalEvent>, filingDate: Day, asOf: Day): Option<Assessment> {
    match AddYears(filingDate, STATUTORY_YEARS)
    case None => None
    case Some(expiry) =>
      var countries := Statuses(Fold(events, asOf));
      var (status, reasons) := Decide(events, countries, expiry, asOf);
      Some(Assessment(status, expiry, countries, EvidenceFrom(events), reasons))
  }

  method AssessEp(events: seq<LegalEvent>, filingDate: Day, asOf: Day) returns (result: Option<Assessment>)
    ensures result == Assess(events, filingDate, asOf)
  {
    var expiry := AddYears(filingDate, STATUTORY_YEARS);
    if expiry.None? {
      return None;
    }
    var countries := CountryStatuses(events, asOf);
    var (status, reasons) := Decide(events, countries, expiry.value, asOf);
    return Some(Assessment(status, expiry.value, countries, EvidenceFrom(events), reasons));
  }
}
