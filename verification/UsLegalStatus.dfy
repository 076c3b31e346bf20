/**
 * US legal status from a file-wrapper record, and the trimmed extract that is stored instead of the
 * record. Dates arrive as text; how a date text is read is a parameter.
 */
module UsLegalStatus {
  import opened Basics
  import opened Calendar

  datatype UsEvent = UsEvent(
    code: Option<string>, description: Option<string>, date: Option<string>, other: map<string, string>)

  datatype UsParent = UsParent(
    kind: Option<string>,
    filingDate: Option<string>,
    applicationNumber: Option<string>,
    other: map<string, string>)

  /** None stands for an absent or null member. */
  datatype UsRecord = UsRecord(
    applicationNumber: Option<string>,
    lastIngestion: Option<string>,
    meta: Option<map<string, Option<string>>>,
    events: Option<seq<UsEvent>>,
    parents: Option<seq<UsParent>>,
    adjustment: Option<map<string, Option<int>>>,
    other: map<string, string>)

  type DateReader = string -> Option<Day>

  datatype Status = PresumedInForce | Lapsed | Expired | Undetermined

  datatype Basis = OwnFiling | ParentFiling(kind: string, applicationNumber: Option<string>)

  datatype Candidate = Candidate(start: Day, basis: Basis)

  datatype Term = Term(candidate: Candidate, adjustmentDays: int, expiry: Day)

  datatype Evidence = Evidence(code: string, description: string, date: Option<Day>)

  datatype Reason =
    | NotGranted
    | LapsedWithoutExpiryEvent
    | LapseRecordedLater
    | ExpiryEventNotLapsed
    | ReissueFollowsOriginal
    | UnrecognisedStatus(text: string)
    | NoFilingDate
    | AdjustmentUnknown
    | TerminalDisclaimer

  datatype Assessment = Assessment(
    publicationNumber: string,
    asOf: Day,
    status: Status,
    term: Option<Term>,
    evidence: seq<Evidence>,
    reasons: seq<Reason>,
    dataAsOf: Option<string>)

  const STATUTORY_YEARS := 20
  const TERM_PARENT_CODES := {"CON", "DIV", "CIP", "NST"}
  const LAPSED_STATUS_MARKER := "Expired Due to NonPayment of Maintenance Fees"
  const IN_FORCE_STATUS := "Patented Case"
  const TERMINAL_DISCLAIMER_CODES := ["DIST", "P574"]
  const EXPIRY_EVENT := "EXP."
  const EVIDENCE_EVENT_PREFIXES := ["M155", "M255", "M355", "EXP", "REM"]
  const ADJUSTMENT := "adjustmentTotalQuantity"

  // ----- reading the record

  function Events(r: UsRecord): seq<UsEvent> {
    if r.events.Some? then r.events.value else []
  }

  function Parents(r: UsRecord): seq<UsParent> {
    if r.parents.Some? then r.parents.value else []
  }

  function Meta(r: UsRecord, key: string): Option<string> {
    if r.meta.Some? && key in r.meta.value then r.meta.value[key] else None
  }

  function Adjustment(r: UsRecord): Option<int> {
    if r.adjustment.Some? && ADJUSTMENT in r.adjustment.value then r.adjustment.value[ADJUSTMENT] else None
  }

  function OrEmpty(text: Option<string>): string {
    if text.Some? then text.value else ""
  }

  function ReadDate(read: DateReader, text: Option<string>): Option<Day> {
    if OrEmpty(text) == "" then None else read(text.value[..Min(10, |text.value|)])
  }

  function StatusText(r: UsRecord): string {
    OrEmpty(Meta(r, "applicationStatusDescriptionText"))
  }

  predicate StartsWithAny(code: string, prefixes: seq<string>) {
    exists i :: 0 <= i < |prefixes| && prefixes[i] <= code
  }

  predicate HasCode(events: seq<UsEvent>, code: string) {
    exists i :: 0 <= i < |events| && events[i].code == Some(code)
  }

  // ----- the term

  function OwnCandidates(r: UsRecord, read: DateReader): seq<Candidate> {
    var own := ReadDate(read, Meta(r, "filingDate"));
    if own.Some? then [Candidate(own.value, OwnFiling)] else []
  }

  predicate StartsTerm(parent: UsParent, read: DateReader) {
    parent.kind.Some? && parent.kind.value in TERM_PARENT_CODES && ReadDate(read, parent.filingDate).Some?
  }

  function ParentCandidates(parents: seq<UsParent>, read: DateReader): seq<Candidate> {
    if parents == [] then []
    else
      var before, last := ParentCandidates(parents[..|parents| - 1], read), parents[|parents| - 1];
      if StartsTerm(last, read) then
        var filed := ReadDate(read, last.filingDate).value;
        before + [Candidate(filed, ParentFiling(last.kind.value, last.applicationNumber))]
      else before
  }

  function Candidates(r: UsRecord, read: DateReader): seq<Candidate> {
    OwnCandidates(r, read) + ParentCandidates(Parents(r), read)
  }

  /** The first of the earliest candidates. */
  function Earliest(candidates: seq<Candidate>): (first: Candidate)
    requires candidates != []
    ensures first in candidates && forall c :: c in candidates ==> AtMost(first.start, c.start)
  {
    if |candidates| == 1 then candidates[0]
    else
      var rest := Earliest(candidates[1..]);
      assert candidates == [candidates[0]] + candidates[1..];
      if Before(rest.start, candidates[0].start) then rest else candidates[0]
  }

  function TermStart(r: UsRecord, read: DateReader): Option<Candidate> {
    var candidates := Candidates(r, read);
    if candidates == [] then None else Some(Earliest(candidates))
  }

  method FindTermStart(r: UsRecord, read: DateReader) returns (start: Option<Candidate>)
    ensures start == TermStart(r, read)
  {
    var candidates := OwnCandidates(r, read);
    var parents := Parents(r);
    for i := 0 to |parents|
      invariant candidates == OwnCandidates(r, read) + ParentCandidates(parents[..i], read)
    {
      var parent := parents[i];
      assert parents[..i + 1][..i] == parents[..i];
      if StartsTerm(parent, read) {
        var filed := ReadDate(read, parent.filingDate).value;
        ghost var before := ParentCandidates(parents[..i], read);
        var added := Candidate(filed, ParentFiling(parent.kind.value, parent.applicationNumber));
        ConcatAssociates(OwnCandidates(r, read), before, [added]);
        candidates := candidates + [added];
      }
    }
    assert parents[..|parents|] == parents;
    start := if candidates == [] then None else Some(Earliest(candidates));
  }

  /** Twenty years from the start plus the adjustment; `failed` where the date arithmetic raises. */
  datatype TermResult = TermResult(failed: bool, term: Option<Term>)

  function TermOf(start: Option<Candidate>, adjustment: Option<int>): TermResult {
    match start
    case None => TermResult(false, None)
    case Some(candidate) =>
      var days := if adjustment.Some? then adjustment.value else 0;
      match AddYears(candidate.start, STATUTORY_YEARS)
      case None => TermResult(true, None)
      case Some(twenty) =>
        var expiry := AddDays(twenty, days);
        if expiry.None? then TermResult(true, None)
        else TermResult(false, Some(Term(candidate, days, expiry.value)))
  }

  // ----- evidence

  predicate IsEvidence(e: UsEvent) {
    var code := OrEmpty(e.code);
    StartsWithAny(code, EVIDENCE_EVENT_PREFIXES) || code in TERMINAL_DISCLAIMER_CODES
  }

  function EvidenceFrom(events: seq<UsEvent>, read: DateReader): seq<Evidence> {
    if events == [] then []
    else
      var before, last := EvidenceFrom(events[..|events| - 1], read), events[|events| - 1];
      if IsEvidence(last) then
        before + [Evidence(OrEmpty(last.code), OrEmpty(last.description), ReadDate(read, last.date))]
      else before
  }

  function StatusEvidence(r: UsRecord, read: DateReader): Evidence {
    Evidence("STATUS", StatusText(r), ReadDate(read, Meta(r, "applicationStatusDate")))
  }

  method CollectEvidence(r: UsRecord, read: DateReader) returns (evidence: seq<Evidence>)
    ensures evidence == [StatusEvidence(r, read)] + EvidenceFrom(Events(r), read)
  {
    evidence := [StatusEvidence(r, read)];
    var events := Events(r);
    for i := 0 to |events|
      invariant evidence == [StatusEvidence(r, read)] + EvidenceFrom(events[..i], read)
    {
      var event := events[i];
      assert events[..i + 1][..i] == events[..i];
      if IsEvidence(event) {
        var added := Evidence(OrEmpty(event.code), OrEmpty(event.description), ReadDate(read, event.date));
        ConcatAssociates([StatusEvidence(r, read)], EvidenceFrom(events[..i], read), [added]);
        evidence := evidence + [added];
      }
    }
    assert events[..|events|] == events;
  }

  // ----- the decision

  /** Every expiry event is dated, and dated after the analysis. */
  predicate ExpiryOnlyLater(events: seq<UsEvent>, read: DateReader, asOf: Day) {
    forall i :: 0 <= i < |events| && events[i].code == Some(EXPIRY_EVENT) ==>
      ReadDate(read, events[i].date).Some? && Before(asOf, ReadDate(read, events[i].date).value)
  }

  predicate IsReissue(r: UsRecord) {
    Upper(OrEmpty(Meta(r, "applicationTypeCategory"))) == "REISSUE"
  }

  function Decide(r: UsRecord, read: DateReader, asOf: Day, term: Option<Term>): (Status, seq<Reason>) {
    var text, events := StatusText(r), Events(r);
    if ReadDate(read, Meta(r, "grantDate")).None? then (Undetermined, [NotGranted])
    else if Contains(text, LAPSED_STATUS_MARKER) then
      if !HasCode(events, EXPIRY_EVENT) then (Lapsed, [LapsedWithoutExpiryEvent])
      else if ExpiryOnlyLater(events, read, asOf) then
        (if term.Some? && AtMost(asOf, term.value.expiry) then PresumedInForce else Undetermined, [LapseRecordedLater])
      else (Lapsed, [])
    else if HasCode(events, EXPIRY_EVENT) then (Undetermined, [ExpiryEventNotLapsed])
    else if IsReissue(r) then (Undetermined, [ReissueFollowsOriginal])
    else if text != IN_FORCE_STATUS then (Undetermined, [UnrecognisedStatus(text)])
    else if term.None? then (Undetermined, [NoFilingDate])
    else
      var unknown := Adjustment(r).None?;
      var reasons := (if unknown then [AdjustmentUnknown] else [])
                     + (if HasCode(events, "DIST") || HasCode(events, "P574") then [TerminalDisclaimer] else []);
      (if Before(term.value.expiry, asOf) && !unknown then Expired else PresumedInForce, reasons)
  }

  /** None where the date arithmetic raises. */
  function Assess(r: UsRecord, read: DateReader, publicationNumber: string, asOf: Day): Option<Assessment> {
    var computed := TermOf(TermStart(r, read), Adjustment(r));
    if computed.failed then None
    else
      var (status, reasons) := Decide(r, read, asOf, computed.term);
      Some(Assessment(publicationNumber, asOf, status, computed.term,
                      [StatusEvidence(r, read)] + EvidenceFrom(Events(r), read), reasons, r.lastIngestion))
  }

  method AssessUs(r: UsRecord, read: DateReader, publicationNumber: string, asOf: Day)
    returns (result: Option<Assessment>)
    ensures result == Assess(r, read, publicationNumber, asOf)
  {
    var evidence := CollectEvidence(r, read);
    var start := FindTermStart(r, read);
    var computed := TermOf(start, Adjustment(r));
    if computed.failed {
      return None;
    }
    var (status, reasons) := Decide(r, read, asOf, computed.term);
    return Some(Assessment(publicationNumber, asOf, status, computed.term, evidence, reasons, r.lastIngestion));
  }

  lemma PatentedCaseIsNotLapsed()
    ensures !Contains(IN_FORCE_STATUS, LAPSED_STATUS_MARKER)
  {
    assert |IN_FORCE_STATUS| < |LAPSED_STATUS_MARKER|;
  }

  predicate IsGranted(r: UsRecord, read: DateReader) {
    ReadDate(read, Meta(r, "grantDate")).Some?
  }

  /** Granted, in force by its status text, with no sign of a lapse and a term of its own. */
  predicate RunsItsTerm(r: UsRecord, read: DateReader) {
    && IsGranted(r, read) && StatusText(r) == IN_FORCE_STATUS && !HasCode(Events(r), EXPIRY_EVENT)
    && !IsReissue(r)
  }

  /** The office recorded a lapse, and all of it after the analysis date. */
  predicate LapsedLater(r: UsRecord, read: DateReader, asOf: Day) {
    && SaysLapsed(r)
    && HasCode(Events(r), EXPIRY_EVENT) && ExpiryOnlyLater(Events(r), read, asOf)
  }

  predicate IsOver(term: Option<Term>, asOf: Day) {
    term.Some? && Before(term.value.expiry, asOf)
  }

  lemma NotOver(term: Term, asOf: Day)
    ensures AtMost(asOf, term.expiry) <==> !IsOver(Some(term), asOf)
  {
    OrdinalOrders(term.expiry, asOf);
    OrdinalOrders(asOf, term.expiry);
  }

  predicate SaysLapsed(r: UsRecord) {
    Contains(StatusText(r), LAPSED_STATUS_MARKER)
  }

  lemma RunningIsNotLapsed(r: UsRecord)
    ensures StatusText(r) == IN_FORCE_STATUS ==> !SaysLapsed(r)
  {
    PatentedCaseIsNotLapsed();
  }

  lemma DecideLapsed(r: UsRecord, read: DateReader, asOf: Day, term: Option<Term>)
    ensures Decide(r, read, asOf, term).0 == Lapsed <==>
            IsGranted(r, read) && SaysLapsed(r) && !LapsedLater(r, read, asOf)
  {
  }

  lemma DecideExpired(r: UsRecord, read: DateReader, asOf: Day, term: Option<Term>)
    ensures Decide(r, read, asOf, term).0 == Expired <==>
            RunsItsTerm(r, read) && IsOver(term, asOf) && Adjustment(r).Some?
  {
    RunningIsNotLapsed(r);
  }

  lemma DecidePresumed(r: UsRecord, read: DateReader, asOf: Day, term: Option<Term>)
    ensures Decide(r, read, asOf, term).0 == PresumedInForce <==>
            && term.Some?
            && ((RunsItsTerm(r, read) && (IsOver(term, asOf) ==> Adjustment(r).None?))
                || (IsGranted(r, read) && LapsedLater(r, read, asOf) && !IsOver(term, asOf)))
  {
    RunningIsNotLapsed(r);
    if term.Some? {
      NotOver(term.value, asOf);
    }
  }

  /** When each status is given; it is undetermined in all other cases. */
  lemma StatusExactly(r: UsRecord, read: DateReader, publicationNumber: string, asOf: Day)
    requires Assess(r, read, publicationNumber, asOf).Some?
    ensures var a := Assess(r, read, publicationNumber, asOf).value;
            && (a.status == Lapsed <==> IsGranted(r, read) && SaysLapsed(r) && !LapsedLater(r, read, asOf))
            && (a.status == Expired <==> RunsItsTerm(r, read) && IsOver(a.term, asOf) && Adjustment(r).Some?)
            && (a.status == PresumedInForce <==>
                  && a.term.Some?
                  && ((RunsItsTerm(r, read) && (IsOver(a.term, asOf) ==> Adjustment(r).None?))
                      || (IsGranted(r, read) && LapsedLater(r, read, asOf) && !IsOver(a.term, asOf))))
  {
    var term := TermOf(TermStart(r, read), Adjustment(r)).term;
    DecideLapsed(r, read, asOf, term);
    DecideExpired(r, read, asOf, term);
    DecidePresumed(r, read, asOf, term);
  }

  /** A patent is presumed in force after its computed expiry only when the adjustment is unknown. */
  lemma NotInForceAfterKnownExpiry(r: UsRecord, read: DateReader, publicationNumber: string, asOf: Day)
    requires Assess(r, read, publicationNumber, asOf).Some? && Adjustment(r).Some?
    ensures var a := Assess(r, read, publicationNumber, asOf).value;
            a.status == PresumedInForce ==> a.term.Some? && AtMost(asOf, a.term.value.expiry)
  {
    var term := TermOf(TermStart(r, read), Adjustment(r)).term;
    DecidePresumed(r, read, asOf, term);
    if term.Some? {
      NotOver(term.value, asOf);
    }
  }

  // ----- the extract

  const META_FIELDS := {
    "filingDate", "grantDate", "patentNumber", "applicationStatusDescriptionText", "applicationStatusDate",
    "effectiveFilingDate", "applicationTypeCategory"}
  const EXTRACT_EVENT_PREFIXES := ["M155", "M255", "M355", "EXP", "REM", "DIST", "P574"]

  predicate IsKept(e: UsEvent) {
    StartsWithAny(OrEmpty(e.code), EXTRACT_EVENT_PREFIXES)
  }

  function KeptEvents(events: seq<UsEvent>): seq<UsEvent> {
    if events == [] then []
    else
      var before, last := KeptEvents(events[..|events| - 1]), events[|events| - 1];
      if IsKept(last) then before + [last] else before
  }

  function Extract(r: UsRecord): UsRecord {
    UsRecord(
      r.applicationNumber,
      r.lastIngestion,
      Some(map key | key in META_FIELDS :: Meta(r, key)),
      Some(KeptEvents(Events(r))),
      Some(Parents(r)),
      if r.adjustment.Some? then Some(map[ADJUSTMENT := Adjustment(r)]) else None,
      map[])
  }

  /** Every event the rules look at survives the trimming. */
  lemma RuleEventsAreKept(e: UsEvent)
    ensures IsEvidence(e) ==> IsKept(e)
    ensures e.code == Some(EXPIRY_EVENT) ==> IsKept(e)
    ensures e.code == Some("DIST") || e.code == Some("P574") ==> IsKept(e)
  {
    var code := OrEmpty(e.code);
    if StartsWithAny(code, EVIDENCE_EVENT_PREFIXES) {
      var i :| 0 <= i < |EVIDENCE_EVENT_PREFIXES| && EVIDENCE_EVENT_PREFIXES[i] <= code;
      assert EXTRACT_EVENT_PREFIXES[i] == EVIDENCE_EVENT_PREFIXES[i];
    }
    assert EXTRACT_EVENT_PREFIXES[3] == "EXP";
    assert EXTRACT_EVENT_PREFIXES[5] == "DIST" && EXTRACT_EVENT_PREFIXES[6] == "P574";
    assert "EXP" <= EXPIRY_EVENT;
  }

  lemma {:induction false} EvidenceSurvives(events: seq<UsEvent>, read: DateReader)
    ensures EvidenceFrom(KeptEvents(events), read) == EvidenceFrom(events, read)
  {
    if events != [] {
      var front, last := events[..|events| - 1], events[|events| - 1];
      EvidenceSurvives(front, read);
      RuleEventsAreKept(last);
      assert (KeptEvents(front) + [last])[..|KeptEvents(front)|] == KeptEvents(front);
    }
  }

  lemma {:induction false} KeptAreTheKept(events: seq<UsEvent>)
    ensures forall e :: e in KeptEvents(events) <==> e in events && IsKept(e)
  {
    if events != [] {
      KeptAreTheKept(events[..|events| - 1]);
      assert events == events[..|events| - 1] + [events[|events| - 1]];
    }
  }

  lemma CodesSurvive(events: seq<UsEvent>, code: string)
    requires code == EXPIRY_EVENT || code == "DIST" || code == "P574"
    ensures HasCode(KeptEvents(events), code) <==> HasCode(events, code)
  {
    var kept := KeptEvents(events);
    KeptAreTheKept(events);
    if HasCode(events, code) {
      var i :| 0 <= i < |events| && events[i].code == Some(code);
      RuleEventsAreKept(events[i]);
      assert events[i] in kept;
    }
    if HasCode(kept, code) {
      var i :| 0 <= i < |kept| && kept[i].code == Some(code);
      assert kept[i] in events;
    }
  }

  lemma ExpiryDatesSurvive(events: seq<UsEvent>, read: DateReader, asOf: Day)
    ensures ExpiryOnlyLater(KeptEvents(events), read, asOf) <==> ExpiryOnlyLater(events, read, asOf)
  {
    var kept := KeptEvents(events);
    KeptAreTheKept(events);
    forall i | 0 <= i < |events| && events[i].code == Some(EXPIRY_EVENT)
      ensures events[i] in kept
    {
      RuleEventsAreKept(events[i]);
    }
    forall i | 0 <= i < |kept|
      ensures kept[i] in events
    {
    }
  }

  lemma MetaSurvives(r: UsRecord, key: string)
    requires key in META_FIELDS
    ensures Meta(Extract(r), key) == Meta(r, key)
  {
  }

  /** The decision looks at no more than this. */
  lemma DecisionReadsOnly(r: UsRecord, r': UsRecord, read: DateReader, asOf: Day, term: Option<Term>)
    requires StatusText(r') == StatusText(r) && Adjustment(r') == Adjustment(r)
    requires Meta(r', "grantDate") == Meta(r, "grantDate")
    requires Meta(r', "applicationTypeCategory") == Meta(r, "applicationTypeCategory")
    requires HasCode(Events(r'), EXPIRY_EVENT) == HasCode(Events(r), EXPIRY_EVENT)
    requires HasCode(Events(r'), "DIST") == HasCode(Events(r), "DIST")
    requires HasCode(Events(r'), "P574") == HasCode(Events(r), "P574")
    requires ExpiryOnlyLater(Events(r'), read, asOf) == ExpiryOnlyLater(Events(r), read, asOf)
    ensures Decide(r', read, asOf, term) == Decide(r, read, asOf, term)
  {
  }

  lemma DecisionSurvives(r: UsRecord, read: DateReader, asOf: Day, term: Option<Term>)
    ensures Decide(Extract(r), read, asOf, term) == Decide(r, read, asOf, term)
  {
    MetaSurvives(r, "grantDate");
    MetaSurvives(r, "applicationStatusDescriptionText");
    MetaSurvives(r, "applicationTypeCategory");
    CodesSurvive(Events(r), EXPIRY_EVENT);
    CodesSurvive(Events(r), "DIST");
    CodesSurvive(Events(r), "P574");
    ExpiryDatesSurvive(Events(r), read, asOf);
    DecisionReadsOnly(r, Extract(r), read, asOf, term);
  }

  lemma TermSurvives(r: UsRecord, read: DateReader)
    ensures TermStart(Extract(r), read) == TermStart(r, read)
    ensures Adjustment(Extract(r)) == Adjustment(r)
  {
    MetaSurvives(r, "filingDate");
  }

  /** The stored extract gives the same assessment as the record, in every part. */
  lemma ExtractKeepsAssessment(r: UsRecord, read: DateReader, publicationNumber: string, asOf: Day)
    ensures Assess(Extract(r), read, publicationNumber, asOf) == Assess(r, read, publicationNumber, asOf)
  {
    TermSurvives(r, read);
    DecisionSurvives(r, read, asOf, TermOf(TermStart(r, read), Adjustment(r)).term);
    EvidenceSurvives(Events(r), read);
    StatusEvidenceSurvives(r, read);
  }

  lemma StatusEvidenceSurvives(r: UsRecord, read: DateReader)
    ensures StatusEvidence(Extract(r), read) == StatusEvidence(r, read)
  {
    MetaSurvives(r, "applicationStatusDescriptionText");
    MetaSurvives(r, "applicationStatusDate");
  }

  lemma {:induction false} KeptTwice(events: seq<UsEvent>)
    ensures KeptEvents(KeptEvents(events)) == KeptEvents(events)
  {
    if events != [] {
      var front, last := events[..|events| - 1], events[|events| - 1];
      KeptTwice(front);
      assert (KeptEvents(front) + [last])[..|KeptEvents(front)|] == KeptEvents(front);
    }
  }

  lemma ExtractIsIdempotent(r: UsRecord)
    ensures Extract(Extract(r)) == Extract(r)
  {
    KeptTwice(Events(r));
    forall key | key in META_FIELDS
      ensures Meta(Extract(r), key) == Meta(r, key)
    {
      MetaSurvives(r, key);
    }
    assert Extract(Extract(r)).meta.value == Extract(r).meta.value;
  }

  // ----- the term is the earliest start, so more parents never extend it

  lemma {:induction false} ParentCandidateOrigin(parents: seq<UsParent>, read: DateReader, c: Candidate)
    returns (p: UsParent)
    requires c in ParentCandidates(parents, read)
    ensures p in parents && StartsTerm(p, read)
    ensures c == Candidate(ReadDate(read, p.filingDate).value, ParentFiling(p.kind.value, p.applicationNumber))
  {
    var front, last := parents[..|parents| - 1], parents[|parents| - 1];
    if c in ParentCandidates(front, read) {
      p := ParentCandidateOrigin(front, read, c);
    } else {
      p := last;
    }
  }

  lemma {:induction false} ParentIsCandidate(parents: seq<UsParent>, read: DateReader, p: UsParent)
    requires p in parents && StartsTerm(p, read)
    ensures Candidate(ReadDate(read, p.filingDate).value, ParentFiling(p.kind.value, p.applicationNumber))
            in ParentCandidates(parents, read)
  {
    var front, last := parents[..|parents| - 1], parents[|parents| - 1];
    if p != last {
      assert parents == front + [last];
      ParentIsCandidate(front, read, p);
    }
  }

  lemma MoreParentsStartNoLater(r: UsRecord, r': UsRecord, read: DateReader)
    requires Meta(r', "filingDate") == Meta(r, "filingDate")
    requires forall p :: p in Parents(r) ==> p in Parents(r')
    requires TermStart(r, read).Some?
    ensures TermStart(r', read).Some?
    ensures AtMost(TermStart(r', read).value.start, TermStart(r, read).value.start)
  {
    var c := TermStart(r, read).value;
    if c in ParentCandidates(Parents(r), read) {
      var p := ParentCandidateOrigin(Parents(r), read, c);
      ParentIsCandidate(Parents(r'), read, p);
    }
    assert c in Candidates(r', read);
  }

  /** Adding parents, qualifying or not, never moves the expiry date later. */
  lemma MoreParentsNeverExtend(r: UsRecord, r': UsRecord, read: DateReader)
    requires Meta(r', "filingDate") == Meta(r, "filingDate") && Adjustment(r') == Adjustment(r)
    requires forall p :: p in Parents(r) ==> p in Parents(r')
    requires TermOf(TermStart(r, read), Adjustment(r)).term.Some?
    requires !TermOf(TermStart(r', read), Adjustment(r')).failed
    ensures TermOf(TermStart(r', read), Adjustment(r')).term.Some?
    ensures AtMost(TermOf(TermStart(r', read), Adjustment(r')).term.value.expiry,
                   TermOf(TermStart(r, read), Adjustment(r)).term.value.expiry)
  {
    MoreParentsStartNoLater(r, r', read);
    var start, start' := TermStart(r, read).value.start, TermStart(r', read).value.start;
    AddYearsIsMonotone(start', start, STATUTORY_YEARS);
    var twenty, twenty' := AddYears(start, STATUTORY_YEARS).value, AddYears(start', STATUTORY_YEARS).value;
    OrdinalOrders(twenty', twenty);
    OrdinalOrders(TermOf(TermStart(r', read), Adjustment(r')).term.value.expiry,
                  TermOf(TermStart(r, read), Adjustment(r)).term.value.expiry);
  }
}
