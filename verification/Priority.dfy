/** Priority claims: one reference date per feature, and what each date makes of a cited document. */
module Priority {
  import opened Basics
  import opened Calendar

  datatype PriorityClaim = PriorityClaim(
    claimId: string,
    priorityDate: Day,
    firstApplication: bool,
    sameSubject: bool,
    proofVerified: bool,
    covers: set<string>)

  datatype Subject = Subject(
    filingDate: Day,
    priorityDate: Option<Day>,
    priorityClaims: seq<PriorityClaim>,
    applicationType: string)

  datatype Fault = AfterFiling | TermExceeded(deadline: Day) | NotFirstApplication | OtherSubject

  datatype Flag = ProofNotVerified(claimId: string) | PartialPriority(missing: set<string>)

  datatype Verification = Verification(
    defaultDate: Day,
    perFeature: map<string, Day>,
    valid: seq<string>,
    invalid: seq<(string, Fault)>,
    flags: seq<Flag>,
    requiresHuman: bool)

  /** The listed claims, or the shorthand priority date as the single claim "P1". */
  function Claims(subject: Subject): seq<PriorityClaim> {
    if subject.priorityClaims != [] then subject.priorityClaims
    else if subject.priorityDate.None? then []
    else [PriorityClaim("P1", subject.priorityDate.value, true, true, true, {})]
  }

  function TermMonths(applicationType: string): int {
    if applicationType == "design" then 6 else 12
  }

  function Deadline(subject: Subject, claim: PriorityClaim): Option<Day> {
    MonthsLater(claim.priorityDate, TermMonths(subject.applicationType))
  }

  function FaultOf(subject: Subject, claim: PriorityClaim): Option<Fault>
    requires Deadline(subject, claim).Some?
  {
    var deadline := Deadline(subject, claim).value;
    if Before(subject.filingDate, claim.priorityDate) then Some(AfterFiling)
    else if Before(deadline, subject.filingDate) then Some(TermExceeded(deadline))
    else if !claim.firstApplication then Some(NotFirstApplication)
    else if !claim.sameSubject then Some(OtherSubject)
    else None
  }

  /** The claim holds: in time, first application, same subject. */
  predicate IsValid(subject: Subject, claim: PriorityClaim) {
    Deadline(subject, claim).Some? && FaultOf(subject, claim).None?
  }

  /** The features a claim covers; an empty list covers all of them. */
  predicate CoversFeature(claim: PriorityClaim, features: seq<string>, code: string) {
    if claim.covers == {} then code in features else code in claim.covers
  }

  // ----- the dates, as minima

  ghost function ValidDates(subject: Subject, claims: seq<PriorityClaim>): set<Day> {
    set c | c in claims && IsValid(subject, c) :: c.priorityDate
  }

  ghost function CoveringDates(
      subject: Subject, claims: seq<PriorityClaim>, features: seq<string>, code: string): set<Day> {
    set c | c in claims && IsValid(subject, c) && CoversFeature(c, features, code) :: c.priorityDate
  }

  /** The dates of the claims whose id is that of a valid claim, valid themselves or not. */
  ghost function DatesByValidId(subject: Subject, claims: seq<PriorityClaim>): set<Day> {
    set c, d | c in claims && d in claims && IsValid(subject, d) && c.claimId == d.claimId :: c.priorityDate
  }

  ghost predicate IsEarliest(day: Day, days: set<Day>) {
    day in days && forall other :: other in days ==> AtMost(day, other)
  }

  lemma EarliestIsUnique(a: Day, b: Day, days: set<Day>)
    requires IsEarliest(a, days) && IsEarliest(b, days)
    ensures a == b
  {
  }

  lemma EarliestOfMore(day: Day, days: set<Day>, more: Day)
    requires IsEarliest(day, days)
    ensures IsEarliest(if Before(more, day) then more else day, days + {more})
  {
  }

  // ----- verification, claim by claim

  /** The features recorded so far, each with the earliest date of a valid claim covering it. */
  ghost predicate CoveredBy(
      covered: map<string, Day>, subject: Subject, claims: seq<PriorityClaim>, features: seq<string>) {
    forall code ::
      var days := CoveringDates(subject, claims, features, code);
      if code in covered then IsEarliest(covered[code], days) else days == {}
  }

  function Record(covered: map<string, Day>, codes: set<string>, day: Day): map<string, Day> {
    covered + map code | code in codes && (code !in covered || Before(day, covered[code])) :: day
  }

  /** How the dates of one feature move with one more valid claim. */
  lemma CoveringDatesGrow(subject: Subject, claims: seq<PriorityClaim>, features: seq<string>, claim: PriorityClaim,
                          code: string)
    requires IsValid(subject, claim)
    ensures CoveringDates(subject, claims + [claim], features, code)
            == CoveringDates(subject, claims, features, code)
               + if CoversFeature(claim, features, code) then {claim.priorityDate} else {}
  {
    assert claim in claims + [claim];
  }

  /** The date recorded for a feature, once the feature may have been recorded with `day`. */
  lemma RecordedDate(covered: map<string, Day>, codes: set<string>, day: Day, code: string, days: set<Day>)
    requires if code in covered then IsEarliest(covered[code], days) else days == {}
    ensures var after := Record(covered, codes, day);
            var grown := days + if code in codes then {day} else {};
            if code in after then IsEarliest(after[code], grown) else grown == {}
  {
    if code in codes {
      if code in covered {
        EarliestOfMore(covered[code], days, day);
      }
    } else {
      assert days + {} == days;
    }
  }

  lemma RecordKeepsCovered(covered: map<string, Day>, subject: Subject, claims: seq<PriorityClaim>,
                           features: seq<string>, claim: PriorityClaim, codes: set<string>)
    requires CoveredBy(covered, subject, claims, features) && IsValid(subject, claim)
    requires forall code :: code in codes <==> CoversFeature(claim, features, code)
    ensures CoveredBy(Record(covered, codes, claim.priorityDate), subject, claims + [claim], features)
  {
    var after := Record(covered, codes, claim.priorityDate);
    forall code
      ensures var days := CoveringDates(subject, claims + [claim], features, code);
              if code in after then IsEarliest(after[code], days) else days == {}
    {
      CoveringDatesGrow(subject, claims, features, claim, code);
      RecordedDate(covered, codes, claim.priorityDate, code, CoveringDates(subject, claims, features, code));
    }
  }

  lemma InvalidKeepsCovered(covered: map<string, Day>, subject: Subject, claims: seq<PriorityClaim>,
                            features: seq<string>, claim: PriorityClaim)
    requires CoveredBy(covered, subject, claims, features) && !IsValid(subject, claim)
    ensures CoveredBy(covered, subject, claims + [claim], features)
  {
    forall code
      ensures CoveringDates(subject, claims + [claim], features, code) == CoveringDates(subject, claims, features, code)
    {
    }
  }

  function ValidIds(subject: Subject, claims: seq<PriorityClaim>): seq<string> {
    if claims == [] then []
    else
      var before, last := ValidIds(subject, claims[..|claims| - 1]), claims[|claims| - 1];
      if IsValid(subject, last) then before + [last.claimId] else before
  }

  function InvalidIds(subject: Subject, claims: seq<PriorityClaim>): seq<(string, Fault)> {
    if claims == [] then []
    else
      var before, last := InvalidIds(subject, claims[..|claims| - 1]), claims[|claims| - 1];
      if Deadline(subject, last).Some? && FaultOf(subject, last).Some? then
        before + [(last.claimId, FaultOf(subject, last).value)]
      else before
  }

  function ProofFlags(subject: Subject, claims: seq<PriorityClaim>): seq<Flag> {
    if claims == [] then []
    else
      var before, last := ProofFlags(subject, claims[..|claims| - 1]), claims[|claims| - 1];
      if IsValid(subject, last) && !last.proofVerified then before + [ProofNotVerified(last.claimId)] else before
  }

  ghost predicate AllDeadlines(subject: Subject, claims: seq<PriorityClaim>) {
    forall c :: c in claims ==> Deadline(subject, c).Some?
  }

  /** What the first loop has gathered. */
  datatype Gathered = Gathered(
    covered: map<string, Day>, valid: seq<string>, invalid: seq<(string, Fault)>, flags: seq<Flag>)

  ghost predicate GatheredFrom(g: Gathered, subject: Subject, claims: seq<PriorityClaim>, features: seq<string>) {
    && AllDeadlines(subject, claims)
    && CoveredBy(g.covered, subject, claims, features)
    && g.valid == ValidIds(subject, claims)
    && g.invalid == InvalidIds(subject, claims)
    && g.flags == ProofFlags(subject, claims)
  }

  /** One round of the loop; None where the deadline lies past the last date there is. */
  method GatherOne(
      g: Gathered, subject: Subject, ghost before: seq<PriorityClaim>, features: seq<string>, claim: PriorityClaim)
      returns (r: Option<Gathered>)
    requires GatheredFrom(g, subject, before, features)
    ensures r.None? <==> Deadline(subject, claim).None?
    ensures r.Some? ==> GatheredFrom(r.value, subject, before + [claim], features)
  {
    assert (before + [claim])[..|before|] == before;
    var deadline := AddMonths(claim.priorityDate, TermMonths(subject.applicationType));
    if deadline.None? {
      return None;
    }
    var fault := FaultOf(subject, claim);
    if fault.Some? {
      InvalidKeepsCovered(g.covered, subject, before, features, claim);
      return Some(g.(invalid := g.invalid + [(claim.claimId, fault.value)]));
    }
    var codes := if claim.covers == {} then Elements(features) else claim.covers;
    RecordKeepsCovered(g.covered, subject, before, features, claim, codes);
    var flags := if claim.proofVerified then g.flags else g.flags + [ProofNotVerified(claim.claimId)];
    return Some(Gathered(Record(g.covered, codes, claim.priorityDate), g.valid + [claim.claimId], g.invalid, flags));
  }

  method Gather(subject: Subject, claims: seq<PriorityClaim>, features: seq<string>) returns (r: Option<Gathered>)
    ensures r.None? <==> !AllDeadlines(subject, claims)
    ensures r.Some? ==> GatheredFrom(r.value, subject, claims, features)
  {
    var g := Gathered(map[], [], [], []);
    ghost var done: seq<PriorityClaim> := [];
    for i := 0 to |claims|
      invariant done == claims[..i] && GatheredFrom(g, subject, done, features)
    {
      TakeOneMore(claims, i);
      var next := GatherOne(g, subject, done, features, claims[i]);
      if next.None? {
        assert claims[i] in claims;
        return None;
      }
      done := done + [claims[i]];
      g := next.value;
    }
    assert done == claims;
    return Some(g);
  }

  lemma {:induction false} ValidIdsAre(subject: Subject, claims: seq<PriorityClaim>)
    ensures forall id :: id in ValidIds(subject, claims) <==>
                         exists d :: d in claims && IsValid(subject, d) && d.claimId == id
  {
    if claims != [] {
      var front, last := claims[..|claims| - 1], claims[|claims| - 1];
      ValidIdsAre(subject, front);
      assert last in claims && forall c :: c in claims <==> c in front || c == last;
    }
  }

  ghost function DatesOfIds(claims: seq<PriorityClaim>, ids: seq<string>): set<Day> {
    set c | c in claims && c.claimId in ids :: c.priorityDate
  }

  lemma DatesOfIdsOneMore(claims: seq<PriorityClaim>, claim: PriorityClaim, ids: seq<string>)
    ensures DatesOfIds(claims + [claim], ids) ==
            DatesOfIds(claims, ids) + (if claim.claimId in ids then {claim.priorityDate} else {})
  {
    assert claim in claims + [claim];
  }

  lemma DatesOfValidIds(subject: Subject, claims: seq<PriorityClaim>)
    ensures DatesOfIds(claims, ValidIds(subject, claims)) == DatesByValidId(subject, claims)
  {
    ValidIdsAre(subject, claims);
  }

  /** The second loop: the earliest date among the claims whose id is listed as valid. */
  method EarliestWithId(claims: seq<PriorityClaim>, ids: seq<string>) returns (earliest: Option<Day>)
    ensures earliest.None? ==> DatesOfIds(claims, ids) == {}
    ensures earliest.Some? ==> IsEarliest(earliest.value, DatesOfIds(claims, ids))
  {
    earliest := None;
    ghost var done: seq<PriorityClaim> := [];
    for i := 0 to |claims|
      invariant done == claims[..i]
      invariant earliest.None? ==> DatesOfIds(done, ids) == {}
      invariant earliest.Some? ==> IsEarliest(earliest.value, DatesOfIds(done, ids))
    {
      var claim := claims[i];
      TakeOneMore(claims, i);
      DatesOfIdsOneMore(done, claim, ids);
      if claim.claimId in ids {
        if earliest.None? || Before(claim.priorityDate, earliest.value) {
          earliest := Some(claim.priorityDate);
        }
      }
      done := done + [claim];
    }
    assert done == claims;
  }

  method DefaultDate(subject: Subject, claims: seq<PriorityClaim>, valid: seq<string>) returns (day: Day)
    requires valid == ValidIds(subject, claims)
    ensures IsEarliest(day, DatesByValidId(subject, claims) + {subject.filingDate})
  {
    DatesOfValidIds(subject, claims);
    var earliest := EarliestWithId(claims, valid);
    day := subject.filingDate;
    if earliest.Some? && Before(earliest.value, subject.filingDate) {
      day := earliest.value;
    }
  }

  ghost predicate Verified(v: Verification, subject: Subject, features: seq<string>) {
    var claims := Claims(subject);
    && v.perFeature.Keys == Elements(features)
    && (forall code :: code in features ==>
          IsEarliest(v.perFeature[code], CoveringDates(subject, claims, features, code) + {subject.filingDate}))
    && IsEarliest(v.defaultDate, DatesByValidId(subject, claims) + {subject.filingDate})
    && v.valid == ValidIds(subject, claims)
    && v.invalid == InvalidIds(subject, claims)
    && v.flags == ProofFlags(subject, claims) + PartialFlags(v.valid, Missing(subject, claims, features))
    && v.requiresHuman == (v.invalid != [] || v.flags != [])
  }

  /** Features no valid claim covers. */
  ghost function Missing(subject: Subject, claims: seq<PriorityClaim>, features: seq<string>): set<string> {
    set code | code in features && CoveringDates(subject, claims, features, code) == {}
  }

  /** Raised when some claim is valid and some feature with a non-empty code is covered by none. */
  function PartialFlags(valid: seq<string>, missing: set<string>): seq<Flag> {
    if valid != [] && exists code :: code in missing && code != "" then [PartialPriority(missing)] else []
  }

  lemma FeatureDatesAreEarliest(covered: map<string, Day>, subject: Subject, claims: seq<PriorityClaim>,
                                features: seq<string>, perFeature: map<string, Day>)
    requires CoveredBy(covered, subject, claims, features)
    requires perFeature == map code | code in features ::
      if code in covered && AtMost(covered[code], subject.filingDate) then covered[code] else subject.filingDate
    ensures forall code :: code in features ==>
              IsEarliest(perFeature[code], CoveringDates(subject, claims, features, code) + {subject.filingDate})
  {
    forall code | code in features
      ensures IsEarliest(perFeature[code], CoveringDates(subject, claims, features, code) + {subject.filingDate})
    {
      if code in covered {
        EarliestOfMore(covered[code], CoveringDates(subject, claims, features, code), subject.filingDate);
      }
    }
  }

  lemma UncoveredAreMissing(
      covered: map<string, Day>, subject: Subject, claims: seq<PriorityClaim>, features: seq<string>)
    requires CoveredBy(covered, subject, claims, features)
    ensures (set code | code in features && code !in covered) == Missing(subject, claims, features)
  {
    forall code
      ensures code in covered <==> CoveringDates(subject, claims, features, code) != {}
    {
    }
  }

  method FeatureDates(covered: map<string, Day>, subject: Subject, features: seq<string>)
    returns (perFeature: map<string, Day>)
    requires CoveredBy(covered, subject, Claims(subject), features)
    ensures perFeature.Keys == Elements(features)
    ensures forall code :: code in features ==>
              var days := CoveringDates(subject, Claims(subject), features, code);
              IsEarliest(perFeature[code], days + {subject.filingDate})
  {
    perFeature := map code | code in features ::
      if code in covered && AtMost(covered[code], subject.filingDate) then covered[code] else subject.filingDate;
    FeatureDatesAreEarliest(covered, subject, Claims(subject), features, perFeature);
  }

  /** None where a deadline lies past the last date there is. */
  method VerifyPriority(subject: Subject, features: seq<string>) returns (r: Option<Verification>)
    ensures r.None? <==> !AllDeadlines(subject, Claims(subject))
    ensures r.Some? ==> Verified(r.value, subject, features)
  {
    var gathered := Gather(subject, Claims(subject), features);
    if gathered.None? {
      return None;
    }
    var g := gathered.value;
    var defaultDate := DefaultDate(subject, Claims(subject), g.valid);
    var perFeature := FeatureDates(g.covered, subject, features);
    var missing := set code | code in features && code !in g.covered;
    UncoveredAreMissing(g.covered, subject, Claims(subject), features);
    var flags := g.flags + PartialFlags(g.valid, missing);
    return Some(Verification(defaultDate, perFeature, g.valid, g.invalid, flags, g.invalid != [] || flags != []));
  }

  // ----- what the dates mean

  ghost predicate DistinctIds(claims: seq<PriorityClaim>) {
    forall c, d :: c in claims && d in claims && c.claimId == d.claimId ==> c == d
  }

  /** No feature's date is before the default date. */
  lemma DefaultIsEarliest(v: Verification, subject: Subject, features: seq<string>, code: string)
    requires Verified(v, subject, features) && code in features
    ensures AtMost(v.defaultDate, v.perFeature[code])
  {
    var claims, day := Claims(subject), v.perFeature[code];
    if day in CoveringDates(subject, claims, features, code) {
      var c :| c in claims && IsValid(subject, c) && c.priorityDate == day;
      assert day in DatesByValidId(subject, claims);
    }
  }

  /** Two applications that differ at most in the order and repetition of their claims. */
  ghost predicate SameClaims(subject: Subject, subject': Subject) {
    && subject'.filingDate == subject.filingDate && subject'.applicationType == subject.applicationType
    && forall c :: c in Claims(subject) <==> c in Claims(subject')
  }

  lemma SameClaimsSameDates(subject: Subject, subject': Subject, features: seq<string>, code: string)
    requires SameClaims(subject, subject')
    ensures CoveringDates(subject, Claims(subject), features, code)
            == CoveringDates(subject', Claims(subject'), features, code)
    ensures DatesByValidId(subject, Claims(subject)) == DatesByValidId(subject', Claims(subject'))
  {
    forall c: PriorityClaim
      ensures IsValid(subject, c) <==> IsValid(subject', c)
    {
    }
  }

  /** The order of the claims does not matter. */
  lemma FeatureDatesIgnoreOrder(v: Verification, v': Verification, subject: Subject, subject': Subject,
                                features: seq<string>, code: string)
    requires Verified(v, subject, features) && Verified(v', subject', features) && code in features
    requires SameClaims(subject, subject')
    ensures v.perFeature[code] == v'.perFeature[code]
    ensures v.defaultDate == v'.defaultDate
  {
    SameClaimsSameDates(subject, subject', features, code);
    EarliestIsUnique(v.perFeature[code], v'.perFeature[code],
                     CoveringDates(subject, Claims(subject), features, code) + {subject.filingDate});
    EarliestIsUnique(v.defaultDate, v'.defaultDate, DatesByValidId(subject, Claims(subject)) + {subject.filingDate});
  }

  /** No invalid claim carries the id of a valid one and an earlier date than every valid claim and the filing. */
  ghost predicate NoEarlierNamesake(subject: Subject, claims: seq<PriorityClaim>, earliest: Day) {
    forall c, d ::
      c in claims && d in claims && IsValid(subject, d) && c.claimId == d.claimId && !IsValid(subject, c) ==>
        AtMost(earliest, c.priorityDate)
  }

  /**
   * The default date is the earliest of the valid claims' dates and the filing date exactly when no invalid
   * claim shares the id of a valid one with an earlier date: the search goes by id.
   */
  lemma DefaultIsEarliestValidExactly(v: Verification, subject: Subject, features: seq<string>, earliest: Day)
    requires Verified(v, subject, features)
    requires IsEarliest(earliest, ValidDates(subject, Claims(subject)) + {subject.filingDate})
    ensures v.defaultDate == earliest <==> NoEarlierNamesake(subject, Claims(subject), earliest)
  {
    var claims := Claims(subject);
    var byId, valid := DatesByValidId(subject, claims), ValidDates(subject, claims);
    assert valid <= byId;
    if NoEarlierNamesake(subject, claims, earliest) {
      forall day | day in byId
        ensures AtMost(earliest, day)
      {
        var c, d :|
          c in claims && d in claims && IsValid(subject, d) && c.claimId == d.claimId && c.priorityDate == day;
        if IsValid(subject, c) {
          assert day in valid;
        }
      }
      EarliestIsUnique(v.defaultDate, earliest, byId + {subject.filingDate});
    }
    if v.defaultDate == earliest {
      forall c, d | c in claims && d in claims && IsValid(subject, d) && c.claimId == d.claimId && !IsValid(subject, c)
        ensures AtMost(earliest, c.priorityDate)
      {
        assert c.priorityDate in byId;
      }
    }
  }

  /** Two claims with one id: the second is out of term by two years. */
  function NamesakeSubject(): Subject {
    Subject(Date(2021, 1, 1), None,
            [PriorityClaim("P1", Date(2020, 6, 1), true, true, true, {}),
             PriorityClaim("P1", Date(2018, 1, 1), true, true, true, {})], "invention")
  }

  /** The invalid claim sets the default date, although the only valid one is later. */
  lemma InvalidNamesakeMovesDefault(v: Verification)
    requires Verified(v, NamesakeSubject(), [])
    ensures ValidDates(NamesakeSubject(), Claims(NamesakeSubject())) == {Date(2020, 6, 1)}
    ensures v.defaultDate == Date(2018, 1, 1)
  {
    var subject := NamesakeSubject();
    var claims := Claims(subject);
    var valid, invalid := claims[0], claims[1];
    assert claims == [valid, invalid];
    assert valid in claims && invalid in claims;
    assert MonthsLater(Date(2020, 6, 1), 12) == Some(Date(2021, 6, 1));
    assert MonthsLater(Date(2018, 1, 1), 12) == Some(Date(2019, 1, 1));
    assert IsValid(subject, valid) && !IsValid(subject, invalid);
    assert Date(2018, 1, 1) in DatesByValidId(subject, claims);
  }

  /** With distinct ids the default date is therefore the earliest of the valid claims' dates and the filing date. */
  lemma DistinctIdsGiveEarliestValid(v: Verification, subject: Subject, features: seq<string>)
    requires Verified(v, subject, features) && DistinctIds(Claims(subject))
    ensures IsEarliest(v.defaultDate, ValidDates(subject, Claims(subject)) + {subject.filingDate})
  {
    assert DatesByValidId(subject, Claims(subject)) == ValidDates(subject, Claims(subject));
  }

  // ----- classifying a cited document

  datatype ReferenceKind = PriorArt | ConflictingApplication | NotUsable | UnknownDates

  datatype CandidateDocument = CandidateDocument(
    docId: string,
    publicationDate: Option<Day>,
    filingDate: Option<Day>,
    priorityDate: Option<Day>,
    filedInChina: bool)

  /** Higher means less usable. */
  function Severity(kind: ReferenceKind): nat {
    match kind
    case PriorArt => 0
    case ConflictingApplication => 1
    case NotUsable => 2
    case UnknownDates => 3
  }

  function EffectiveFilingDate(doc: CandidateDocument): Option<Day> {
    match (doc.priorityDate, doc.filingDate)
    case (Some(priority), Some(filed)) => Some(if Before(filed, priority) then filed else priority)
    case (Some(priority), None) => Some(priority)
    case (None, filed) => filed
  }

  function Classify(doc: CandidateDocument, reference: Day): ReferenceKind {
    var filed := EffectiveFilingDate(doc);
    if doc.publicationDate.None? || filed.None? then UnknownDates
    else if Before(doc.publicationDate.value, reference) then PriorArt
    else if Before(filed.value, reference) && doc.filedInChina then ConflictingApplication
    else NotUsable
  }

  function ReferenceDateFor(v: Verification, code: string): Day {
    if code in v.perFeature then v.perFeature[code] else v.defaultDate
  }

  function SubjectReferenceDate(subject: Subject): Day {
    if subject.priorityDate.Some? && Before(subject.priorityDate.value, subject.filingDate)
    then subject.priorityDate.value else subject.filingDate
  }

  function ClassifyReference(
      doc: CandidateDocument, subject: Subject, v: Option<Verification>, code: Option<string>): ReferenceKind {
    match (v, code)
    case (Some(verification), Some(feature)) => Classify(doc, ReferenceDateFor(verification, feature))
    case (Some(verification), None) => Classify(doc, verification.defaultDate)
    case (None, _) => Classify(doc, SubjectReferenceDate(subject))
  }

  /** The document's class over all its features: the least usable one. */
  method ClassifyDocument(doc: CandidateDocument, subject: Subject, v: Option<Verification>, codes: seq<string>)
      returns (kind: ReferenceKind)
    ensures v.None? || codes == [] ==> kind == ClassifyReference(doc, subject, v, None)
    ensures v.Some? && codes != [] ==>
              && (exists code :: code in codes && kind == ClassifyReference(doc, subject, v, Some(code)))
              && forall code :: code in codes ==>
                   Severity(ClassifyReference(doc, subject, v, Some(code))) <= Severity(kind)
  {
    if v.None? || codes == [] {
      return ClassifyReference(doc, subject, v, None);
    }
    kind := ClassifyReference(doc, subject, v, Some(codes[0]));
    for i := 1 to |codes|
      invariant exists k :: 0 <= k < i && kind == ClassifyReference(doc, subject, v, Some(codes[k]))
      invariant forall k :: 0 <= k < i ==>
                  Severity(ClassifyReference(doc, subject, v, Some(codes[k]))) <= Severity(kind)
    {
      var next := ClassifyReference(doc, subject, v, Some(codes[i]));
      if Severity(next) > Severity(kind) {
        kind := next;
      }
    }
  }

  /** Moving the reference date earlier never makes a document more usable. */
  lemma EarlierReferenceIsMoreSevere(doc: CandidateDocument, earlier: Day, later: Day)
    requires AtMost(earlier, later)
    ensures Severity(Classify(doc, earlier)) >= Severity(Classify(doc, later))
  {
  }

  lemma SeverityIsInjective(a: ReferenceKind, b: ReferenceKind)
    requires Severity(a) == Severity(b)
    ensures a == b
  {
  }

  /** So the most severe class over the features is the class at the earliest of their dates. */
  lemma DocumentClassIsAtEarliestDate(doc: CandidateDocument, subject: Subject, v: Verification, codes: seq<string>,
                                      kind: ReferenceKind, earliest: Day)
    requires exists code :: code in codes && kind == ClassifyReference(doc, subject, Some(v), Some(code))
    requires forall code :: code in codes ==>
               Severity(ClassifyReference(doc, subject, Some(v), Some(code))) <= Severity(kind)
    requires IsEarliest(earliest, set code | code in codes :: ReferenceDateFor(v, code))
    ensures kind == Classify(doc, earliest)
  {
    var code :| code in codes && kind == ClassifyReference(doc, subject, Some(v), Some(code));
    assert ReferenceDateFor(v, code) in (set c | c in codes :: ReferenceDateFor(v, c));
    EarlierReferenceIsMoreSevere(doc, earliest, ReferenceDateFor(v, code));
    var first :| first in codes && ReferenceDateFor(v, first) == earliest;
    assert Severity(ClassifyReference(doc, subject, Some(v), Some(first))) <= Severity(kind);
    SeverityIsInjective(kind, Classify(doc, earliest));
  }
}
