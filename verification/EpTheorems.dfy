/** What the fold over European legal events depends on, and what it does not. */
module EpTheorems {
  import opened Basics
  import opened Calendar
  import opened EpLegalStatus

  // ----- each state's dates are the latest ones

  /** The dates of the lapses of state `c` in effect by the analysis date. */
  ghost function LapseDates(events: seq<LegalEvent>, c: string, asOf: Day): set<Day> {
    set e | e in events && Country(e) == c && IsLapse(e) && InEffect(e, asOf) && EffectiveDate(e).Some? ::
      EffectiveDate(e).value
  }

  ghost function ReinstatementDates(events: seq<LegalEvent>, c: string, asOf: Day): set<Day> {
    set e | e in events && Country(e) == c && IsReinstatement(e) && InEffect(e, asOf) && EffectiveDate(e).Some? ::
      EffectiveDate(e).value
  }

  ghost predicate IsLatest(r: Option<Day>, dates: set<Day>) {
    match r
    case None => dates == {}
    case Some(d) => d in dates && forall other :: other in dates ==> AtMost(other, d)
  }

  lemma LatestIsUnique(r: Option<Day>, s: Option<Day>, dates: set<Day>)
    requires IsLatest(r, dates) && IsLatest(s, dates)
    ensures r == s
  {
  }

  lemma LatestWithOneMore(r: Option<Day>, dates: set<Day>, added: Day)
    requires IsLatest(r, dates)
    ensures IsLatest(if LaterOf(Some(added), r) then Some(added) else r, dates + {added})
  {
  }

  /** How one event moves the dates of state `c`. */
  lemma StepMovesDates(t: Tables, e: LegalEvent, c: string, asOf: Day)
    requires c != ""
    ensures var before, after := StatusOf(t, c), StatusOf(Step(t, e, asOf), c);
            var counts := Country(e) == c && InEffect(e, asOf);
            && after.lapsedOn == (if counts && IsLapse(e) && LaterOf(EffectiveDate(e), before.lapsedOn)
                                  then EffectiveDate(e) else before.lapsedOn)
            && after.reinstatedOn == (if counts && IsReinstatement(e) && LaterOf(EffectiveDate(e), before.reinstatedOn)
                                      then EffectiveDate(e) else before.reinstatedOn)
  {
  }

  lemma LapseDatesGrow(front: seq<LegalEvent>, last: LegalEvent, c: string, asOf: Day)
    ensures LapseDates(front + [last], c, asOf) == LapseDates(front, c, asOf) + LapseDates([last], c, asOf)
    ensures LapseDates([last], c, asOf)
            == if Country(last) == c && IsLapse(last) && InEffect(last, asOf) && EffectiveDate(last).Some?
               then {EffectiveDate(last).value} else {}
  {
  }

  lemma ReinstatementDatesGrow(front: seq<LegalEvent>, last: LegalEvent, c: string, asOf: Day)
    ensures ReinstatementDates(front + [last], c, asOf)
            == ReinstatementDates(front, c, asOf) + ReinstatementDates([last], c, asOf)
    ensures ReinstatementDates([last], c, asOf)
            == if Country(last) == c && IsReinstatement(last) && InEffect(last, asOf) && EffectiveDate(last).Some?
               then {EffectiveDate(last).value} else {}
  {
  }

  /** The latest date after one more event. */
  lemma LatestMoves(before: Option<Day>, dates: set<Day>, added: Option<Day>, counts: bool)
    requires IsLatest(before, dates)
    ensures IsLatest(if counts && LaterOf(added, before) then added else before,
                     dates + if counts && added.Some? then {added.value} else {})
  {
    if counts && added.Some? {
      LatestWithOneMore(before, dates, added.value);
    } else {
      assert dates + {} == dates;
    }
  }

  /** The lapse date is the latest dated one in effect; undated lapses do not matter. */
  lemma {:induction false} FoldKeepsLatestLapse(events: seq<LegalEvent>, c: string, asOf: Day)
    requires c != ""
    ensures IsLatest(StatusOf(Fold(events, asOf), c).lapsedOn, LapseDates(events, c, asOf))
  {
    if events != [] {
      var front, last := events[..|events| - 1], events[|events| - 1];
      var before := StatusOf(Fold(front, asOf), c).lapsedOn;
      FoldKeepsLatestLapse(front, c, asOf);
      StepMovesDates(Fold(front, asOf), last, c, asOf);
      LatestMoves(before, LapseDates(front, c, asOf), EffectiveDate(last),
                  Country(last) == c && IsLapse(last) && InEffect(last, asOf));
      assert events == front + [last];
      LapseDatesGrow(front, last, c, asOf);
    }
  }

  /** The same for the reinstatement date. */
  lemma {:induction false} FoldKeepsLatestReinstatement(events: seq<LegalEvent>, c: string, asOf: Day)
    requires c != ""
    ensures IsLatest(StatusOf(Fold(events, asOf), c).reinstatedOn, ReinstatementDates(events, c, asOf))
  {
    if events != [] {
      var front, last := events[..|events| - 1], events[|events| - 1];
      var before := StatusOf(Fold(front, asOf), c).reinstatedOn;
      FoldKeepsLatestReinstatement(front, c, asOf);
      StepMovesDates(Fold(front, asOf), last, c, asOf);
      LatestMoves(before, ReinstatementDates(front, c, asOf), EffectiveDate(last),
                  Country(last) == c && IsReinstatement(last) && InEffect(last, asOf));
      assert events == front + [last];
      ReinstatementDatesGrow(front, last, c, asOf);
    }
  }

  /** Some dated lapse of the state in effect is later than all its dated reinstatements in effect. */
  ghost predicate LapsedLast(events: seq<LegalEvent>, c: string, asOf: Day) {
    exists d :: d in LapseDates(events, c, asOf) && IsAfterAll(d, ReinstatementDates(events, c, asOf))
  }

  predicate IsAfterAll(d: Day, days: set<Day>) {
    forall day :: day in days ==> Before(day, d)
  }

  /** A state is dead exactly when some dated lapse is later than every dated reinstatement. */
  lemma DeadMeansLapsedLast(events: seq<LegalEvent>, c: string, asOf: Day)
    requires c != ""
    ensures Dead(Statuses(Fold(events, asOf)), c) <==> LapsedLast(events, c, asOf)
  {
    FoldKeepsLatestLapse(events, c, asOf);
    FoldKeepsLatestReinstatement(events, c, asOf);
    var status := StatusOf(Fold(events, asOf), c);
    DeadIsLapseInEffect(events, c, asOf);
    if status.LapseInEffect() {
      var d := status.lapsedOn.value;
      forall r | r in ReinstatementDates(events, c, asOf)
        ensures Before(r, d)
      {
        assert AtMost(r, status.reinstatedOn.value);
      }
    }
  }

  lemma DeadIsLapseInEffect(events: seq<LegalEvent>, c: string, asOf: Day)
    ensures Dead(Statuses(Fold(events, asOf)), c) <==> StatusOf(Fold(events, asOf), c).LapseInEffect()
  {
  }

  /** A granted document names the state as designated. */
  predicate IsDesignated(events: seq<LegalEvent>, s: string) {
    exists e :: e in events && s in ListedStates(e)
  }

  lemma DesignatedStates(events: seq<LegalEvent>, asOf: Day)
    ensures forall s :: s in Designated(events) <==> IsDesignated(events, s)
    ensures forall s :: s in Designated(events) ==>
              (Dead(Statuses(Fold(events, asOf)), s) <==> LapsedLast(events, s, asOf))
  {
    DesignatedElements(events);
    forall s | s in Designated(events)
      ensures Dead(Statuses(Fold(events, asOf)), s) <==> LapsedLast(events, s, asOf)
    {
      DesignatedInBoth(events, events, s);
      DeadMeansLapsedLast(events, s, asOf);
    }
  }

  /** When each status is given, said of the events alone. */
  lemma StatusExactly(events: seq<LegalEvent>, filingDate: Day, asOf: Day)
    requires Assess(events, filingDate, asOf).Some?
    ensures var a := Assess(events, filingDate, asOf).value;
            var unmapped := exists e :: e in events && IsUnknownNegative(e, asOf);
            && AddYears(filingDate, STATUTORY_YEARS) == Some(a.expiry)
            && (a.status == Expired <==> Before(a.expiry, asOf))
            && (a.status == Undetermined <==>
                  && !Before(a.expiry, asOf)
                  && (unmapped || (!HasUnitary(events) && forall s :: !IsDesignated(events, s))))
            && (a.status == Lapsed <==>
                  && !Before(a.expiry, asOf) && !unmapped && !HasUnitary(events)
                  && (exists s :: IsDesignated(events, s))
                  && forall s :: IsDesignated(events, s) ==> LapsedLast(events, s, asOf))
            && (a.status == PresumedInForce <==>
                  && !Before(a.expiry, asOf) && !unmapped
                  && (HasUnitary(events) || exists s :: IsDesignated(events, s) && !LapsedLast(events, s, asOf)))
  {
    DesignatedStates(events, asOf);
    NoUnknownNegatives(events, asOf);
    var designated := Designated(events);
    assert designated != [] ==> designated[0] in designated;
    assert forall s :: IsDesignated(events, s) ==> s in designated;
  }

  lemma NoUnknownNegatives(events: seq<LegalEvent>, asOf: Day)
    ensures UnknownNegatives(events, asOf) == {} <==> !exists e :: e in events && IsUnknownNegative(e, asOf)
  {
    if e :| e in events && IsUnknownNegative(e, asOf) {
      assert e.code in UnknownNegatives(events, asOf);
    }
  }

  // ----- the last fee

  ghost predicate PaysFee(e: LegalEvent, c: string, asOf: Day) {
    Country(e) == c && InEffect(e, asOf) && e.code == FEE
  }

  /** The fee year kept for a state is the largest of its fee events in effect. */
  lemma {:induction false} FoldKeepsLargestFeeYear(events: seq<LegalEvent>, c: string, asOf: Day)
    requires c != ""
    ensures c in Fold(events, asOf).fee <==> exists e :: e in events && PaysFee(e, c, asOf)
    ensures c in Fold(events, asOf).fee ==>
              exists e :: e in events && PaysFee(e, c, asOf) && FeeYear(e) == Fold(events, asOf).fee[c].0
    ensures forall e :: e in events && PaysFee(e, c, asOf) ==> OrZero(FeeYear(e)) <= OrZero(Fold(events, asOf).fee[c].0)
  {
    if events != [] {
      var front, last := events[..|events| - 1], events[|events| - 1];
      FoldKeepsLargestFeeYear(front, c, asOf);
      assert events == front + [last];
      FeeStep(Fold(front, asOf), last, c, asOf);
      assert PaysFee(last, c, asOf) ==> last in events;
    }
  }

  lemma FeeStep(t: Tables, e: LegalEvent, c: string, asOf: Day)
    requires c != ""
    ensures var after := Step(t, e, asOf).fee;
            && (c in after <==> c in t.fee || PaysFee(e, c, asOf))
            && (!PaysFee(e, c, asOf) && c in t.fee ==> after[c] == t.fee[c])
            && (PaysFee(e, c, asOf) ==>
                  after[c].0 == if c in t.fee && OrZero(FeeYear(e)) <= OrZero(t.fee[c].0)
                                then t.fee[c].0 else FeeYear(e))
  {
  }

  // ----- the status depends only on which decisive events there are

  /** The events that can decide the status. */
  predicate Decisive(e: LegalEvent) {
    e.code == DESIGNATION || IsUnitary(e) || IsNegative(e) || IsReinstatement(e)
  }

  ghost predicate SameDecisive(events: seq<LegalEvent>, events': seq<LegalEvent>) {
    forall e :: Decisive(e) ==> (e in events <==> e in events')
  }

  lemma SameDates(events: seq<LegalEvent>, events': seq<LegalEvent>, c: string, asOf: Day)
    requires SameDecisive(events, events') && c != ""
    ensures StatusOf(Fold(events, asOf), c).lapsedOn == StatusOf(Fold(events', asOf), c).lapsedOn
    ensures StatusOf(Fold(events, asOf), c).reinstatedOn == StatusOf(Fold(events', asOf), c).reinstatedOn
  {
    FoldKeepsLatestLapse(events, c, asOf);
    FoldKeepsLatestReinstatement(events, c, asOf);
    FoldKeepsLatestLapse(events', c, asOf);
    FoldKeepsLatestReinstatement(events', c, asOf);
    assert LapseDates(events, c, asOf) == LapseDates(events', c, asOf);
    assert ReinstatementDates(events, c, asOf) == ReinstatementDates(events', c, asOf);
    var s, s' := StatusOf(Fold(events, asOf), c), StatusOf(Fold(events', asOf), c);
    LatestIsUnique(s.lapsedOn, s'.lapsedOn, LapseDates(events, c, asOf));
    LatestIsUnique(s.reinstatedOn, s'.reinstatedOn, ReinstatementDates(events, c, asOf));
  }

  lemma {:induction false} AppendNewElements(before: seq<string>, more: seq<string>)
    ensures forall s :: s in AppendNew(before, more) <==> s in before || s in more
    decreases more
  {
    if more != [] {
      AppendNewElements(if more[0] in before then before else before + [more[0]], more[1..]);
      assert more == [more[0]] + more[1..];
    }
  }

  lemma {:induction false} DesignatedElements(events: seq<LegalEvent>)
    ensures forall s :: s in Designated(events) <==> exists e :: e in events && s in ListedStates(e)
  {
    if events != [] {
      var front, last := events[..|events| - 1], events[|events| - 1];
      DesignatedElements(front);
      AppendNewElements(Designated(front), ListedStates(last));
      assert events == front + [last];
    }
  }

  lemma {:induction false} AppendNewDistinct(before: seq<string>, more: seq<string>)
    requires Distinct(before)
    ensures Distinct(AppendNew(before, more))
    decreases more
  {
    if more != [] {
      AppendNewDistinct(if more[0] in before then before else before + [more[0]], more[1..]);
    }
  }

  /** Each designated state is listed once. */
  lemma {:induction false} DesignatedDistinct(events: seq<LegalEvent>)
    ensures Distinct(Designated(events))
  {
    if events != [] {
      DesignatedDistinct(events[..|events| - 1]);
      AppendNewDistinct(Designated(events[..|events| - 1]), ListedStates(events[|events| - 1]));
    }
  }

  lemma {:induction false} StateCodesAreNamed(words: seq<string>)
    ensures "" !in StateCodes(words)
  {
    if words != [] {
      StateCodesAreNamed(words[1..]);
    }
  }

  lemma DesignatedInBoth(events: seq<LegalEvent>, events': seq<LegalEvent>, s: string)
    requires SameDecisive(events, events') && s in Designated(events)
    ensures s in Designated(events') && s != ""
  {
    DesignatedElements(events);
    DesignatedElements(events');
    var e :| e in events && s in ListedStates(e);
    assert Decisive(e);
    StateCodesAreNamed(Words(FieldOf(e, "Designated State(s)")));
  }

  lemma SameDesignated(events: seq<LegalEvent>, events': seq<LegalEvent>)
    requires SameDecisive(events, events')
    ensures forall s :: s in Designated(events) ==> s in Designated(events') && s != ""
    ensures forall s :: s in Designated(events') ==> s in Designated(events)
    ensures Designated(events) == [] <==> Designated(events') == []
  {
    forall s | s in Designated(events)
      ensures s in Designated(events') && s != ""
    {
      DesignatedInBoth(events, events', s);
    }
    forall s | s in Designated(events')
      ensures s in Designated(events)
    {
      DesignatedInBoth(events', events, s);
    }
    assert Designated(events) != [] ==> Designated(events)[0] in Designated(events);
    assert Designated(events') != [] ==> Designated(events')[0] in Designated(events');
  }

  /** Order and repetition of events never change the status, and neither do events that are not decisive. */
  lemma StatusDependsOnDecisiveSet(events: seq<LegalEvent>, events': seq<LegalEvent>, filingDate: Day, asOf: Day)
    requires SameDecisive(events, events')
    ensures Assess(events, filingDate, asOf).Some? <==> Assess(events', filingDate, asOf).Some?
    ensures Assess(events, filingDate, asOf).Some? ==>
              && Assess(events, filingDate, asOf).value.status == Assess(events', filingDate, asOf).value.status
              && Assess(events, filingDate, asOf).value.expiry == Assess(events', filingDate, asOf).value.expiry
  {
    SameDesignated(events, events');
    forall s | s in Designated(events)
      ensures Dead(Statuses(Fold(events, asOf)), s) <==> Dead(Statuses(Fold(events', asOf)), s)
    {
      DeadIsLapseInEffect(events, s, asOf);
      DeadIsLapseInEffect(events', s, asOf);
      SameDates(events, events', s, asOf);
    }
    assert UnknownNegatives(events, asOf) == UnknownNegatives(events', asOf);
  }

  /** In particular the fold is free of order. */
  lemma StatusIsOrderFree(events: seq<LegalEvent>, events': seq<LegalEvent>, filingDate: Day, asOf: Day, c: string)
    requires multiset(events) == multiset(events') && c != ""
    ensures Assess(events, filingDate, asOf).Some? <==> Assess(events', filingDate, asOf).Some?
    ensures Assess(events, filingDate, asOf).Some? ==>
              Assess(events, filingDate, asOf).value.status == Assess(events', filingDate, asOf).value.status
    ensures StatusOf(Fold(events, asOf), c).lapsedOn == StatusOf(Fold(events', asOf), c).lapsedOn
    ensures StatusOf(Fold(events, asOf), c).reinstatedOn == StatusOf(Fold(events', asOf), c).reinstatedOn
  {
    forall e
      ensures e in events <==> e in events'
    {
      assert e in events <==> multiset(events)[e] > 0;
      assert e in events' <==> multiset(events')[e] > 0;
    }
    StatusDependsOnDecisiveSet(events, events', filingDate, asOf);
    SameDates(events, events', c, asOf);
  }

  // ----- events that can be left out

  /** The event changes no table and no decision. */
  predicate Inert(e: LegalEvent, asOf: Day) {
    && (Country(e) == "" || !InEffect(e, asOf) || (!IsReinstatement(e) && e.code != FEE && !IsNegative(e)))
    && e.code != DESIGNATION && !IsUnitary(e) && !IsUnknownNegative(e, asOf)
  }

  function Only(keep: LegalEvent -> bool): LegalEvent -> seq<LegalEvent> {
    e => if keep(e) then [e] else []
  }

  function Filter(events: seq<LegalEvent>, keep: LegalEvent -> bool): seq<LegalEvent> {
    FlatMap(events, Only(keep))
  }

  lemma FilterElements(events: seq<LegalEvent>, keep: LegalEvent -> bool)
    ensures forall e :: e in Filter(events, keep) <==> e in events && keep(e)
  {
    forall e
      ensures e in Filter(events, keep) <==> e in events && keep(e)
    {
      FlatMapMember(events, Only(keep), e);
      assert forall x :: e in Only(keep)(x) <==> x == e && keep(e);
    }
  }

  lemma FilterStep(events: seq<LegalEvent>, keep: LegalEvent -> bool)
    requires events != []
    ensures var front, last := events[..|events| - 1], events[|events| - 1];
            Filter(events, keep) == if keep(last) then Filter(front, keep) + [last] else Filter(front, keep)
  {
  }

  lemma {:induction false} InertLeavesTables(events: seq<LegalEvent>, keep: LegalEvent -> bool, asOf: Day)
    requires forall e :: e in events && !keep(e) ==> Inert(e, asOf)
    ensures Fold(Filter(events, keep), asOf) == Fold(events, asOf)
  {
    if events != [] {
      var front, last := events[..|events| - 1], events[|events| - 1];
      InertLeavesTables(front, keep, asOf);
      FilterStep(events, keep);
      if keep(last) {
        OneMoreStep(Filter(front, keep), last, asOf);
      } else {
        InertChangesNothing(Fold(front, asOf), last, asOf);
      }
    }
  }

  lemma {:induction false} InertLeavesDesignations(events: seq<LegalEvent>, keep: LegalEvent -> bool, asOf: Day)
    requires forall e :: e in events && !keep(e) ==> Inert(e, asOf)
    ensures Designated(Filter(events, keep)) == Designated(events)
  {
    if events != [] {
      var front, last := events[..|events| - 1], events[|events| - 1];
      InertLeavesDesignations(front, keep, asOf);
      FilterStep(events, keep);
      if keep(last) {
        OneMoreDesignation(Filter(front, keep), last);
      } else {
        InertChangesNothing(NO_TABLES, last, asOf);
      }
    }
  }

  /** Everything but the evidence. */
  predicate SameDecision(a: Option<Assessment>, b: Option<Assessment>) {
    match (a, b)
    case (Some(x), Some(y)) => x.(evidence := []) == y.(evidence := [])
    case (None, None) => true
    case _ => false
  }

  /** The decision looks at no more than this. */
  lemma DecisionReadsOnly(events: seq<LegalEvent>, events': seq<LegalEvent>, filingDate: Day, asOf: Day)
    requires Fold(events', asOf) == Fold(events, asOf) && Designated(events') == Designated(events)
    requires UnknownNegatives(events', asOf) == UnknownNegatives(events, asOf)
    requires HasUnitary(events') == HasUnitary(events)
    ensures SameDecision(Assess(events', filingDate, asOf), Assess(events, filingDate, asOf))
  {
  }

  lemma InertLeavesDecision(events: seq<LegalEvent>, keep: LegalEvent -> bool, filingDate: Day, asOf: Day)
    requires forall e :: e in events && !keep(e) ==> Inert(e, asOf)
    ensures SameDecision(Assess(Filter(events, keep), filingDate, asOf), Assess(events, filingDate, asOf))
  {
    var kept := Filter(events, keep);
    InertLeavesTables(events, keep, asOf);
    InertLeavesDesignations(events, keep, asOf);
    FilterElements(events, keep);
    assert UnknownNegatives(kept, asOf) == UnknownNegatives(events, asOf);
    assert HasUnitary(kept) == HasUnitary(events);
    DecisionReadsOnly(events, kept, filingDate, asOf);
  }

  /** Designations and unitary-effect events count whenever they are dated; all others only once in effect. */
  predicate NotFuture(e: LegalEvent, asOf: Day) {
    e.code == DESIGNATION || IsUnitary(e) || InEffect(e, asOf)
  }

  lemma FutureEventsDoNotMatter(events: seq<LegalEvent>, filingDate: Day, asOf: Day)
    ensures SameDecision(Assess(Filter(events, e => NotFuture(e, asOf)), filingDate, asOf),
                         Assess(events, filingDate, asOf))
  {
    InertLeavesDecision(events, e => NotFuture(e, asOf), filingDate, asOf);
  }

  // ----- events that are already known

  /** The tables already reflect the event. */
  predicate TakenIn(t: Tables, m: Move) {
    match m
    case NoMove => true
    case Reinstate(c, on) => c in t.reinstated && !LaterOf(on, t.reinstated[c])
    case PayFee(c, year, _) => c in t.fee && OrZero(year) <= OrZero(t.fee[c].0)
    case Lapse(c, on, _) => c in t.lapse && !LaterOf(on, t.lapse[c].0)
  }

  lemma TakenInChangesNothing(t: Tables, m: Move)
    requires TakenIn(t, m)
    ensures Apply(t, m) == t
  {
    if m.Reinstate? && t.reinstated[m.state].None? {
      assert t.reinstated[m.state := None] == t.reinstated;
    }
  }

  lemma ApplyTakesIn(t: Tables, m: Move)
    ensures TakenIn(Apply(t, m), m)
  {
  }

  lemma TakenInStays(t: Tables, m: Move, next: Move)
    requires TakenIn(t, m)
    ensures TakenIn(Apply(t, next), m)
  {
  }

  lemma {:induction false} KnownEventIsTakenIn(events: seq<LegalEvent>, e: LegalEvent, asOf: Day)
    requires e in events
    ensures TakenIn(Fold(events, asOf), MoveOf(e, asOf))
  {
    var front, last := events[..|events| - 1], events[|events| - 1];
    if e == last {
      ApplyTakesIn(Fold(front, asOf), MoveOf(e, asOf));
    } else {
      assert events == front + [last];
      KnownEventIsTakenIn(front, e, asOf);
      TakenInStays(Fold(front, asOf), MoveOf(e, asOf), MoveOf(last, asOf));
    }
  }

  lemma {:induction false} AppendKnownStates(before: seq<string>, more: seq<string>)
    requires forall s :: s in more ==> s in before
    ensures AppendNew(before, more) == before
    decreases more
  {
    if more != [] {
      AppendKnownStates(before, more[1..]);
    }
  }

  lemma InertChangesNothing(t: Tables, e: LegalEvent, asOf: Day)
    requires Inert(e, asOf)
    ensures Step(t, e, asOf) == t && ListedStates(e) == []
  {
  }

  /** Appending events that are inert or already present changes no table ... */
  lemma {:induction false} KnownEventsLeaveTables(events: seq<LegalEvent>, more: seq<LegalEvent>, asOf: Day)
    requires forall e :: e in more ==> Inert(e, asOf) || e in events
    ensures Fold(events + more, asOf) == Fold(events, asOf)
  {
    if more == [] {
      assert events + more == events;
    } else {
      var front, last := more[..|more| - 1], more[|more| - 1];
      assert more == front + [last];
      KnownEventsLeaveTables(events, front, asOf);
      assert last in more;
      KnownEventMovesNothing(events, last, asOf);
      ConcatAssociates(events, front, [last]);
      OneMoreStep(events + front, last, asOf);
    }
  }

  lemma OneMoreStep(events: seq<LegalEvent>, e: LegalEvent, asOf: Day)
    ensures Fold(events + [e], asOf) == Step(Fold(events, asOf), e, asOf)
  {
    assert (events + [e])[..|events|] == events;
  }

  lemma KnownEventMovesNothing(events: seq<LegalEvent>, e: LegalEvent, asOf: Day)
    requires Inert(e, asOf) || e in events
    ensures Step(Fold(events, asOf), e, asOf) == Fold(events, asOf)
  {
    if e in events {
      KnownEventIsTakenIn(events, e, asOf);
      TakenInChangesNothing(Fold(events, asOf), MoveOf(e, asOf));
    } else {
      InertChangesNothing(Fold(events, asOf), e, asOf);
    }
  }

  /** ... and no designation. */
  lemma {:induction false} KnownEventsLeaveDesignations(events: seq<LegalEvent>, more: seq<LegalEvent>, asOf: Day)
    requires forall e :: e in more ==> Inert(e, asOf) || e in events
    ensures Designated(events + more) == Designated(events)
  {
    if more == [] {
      assert events + more == events;
    } else {
      var front, last := more[..|more| - 1], more[|more| - 1];
      assert more == front + [last];
      KnownEventsLeaveDesignations(events, front, asOf);
      assert last in more;
      KnownEventAddsNoState(events, last, asOf);
      ConcatAssociates(events, front, [last]);
      OneMoreDesignation(events + front, last);
    }
  }

  lemma OneMoreDesignation(events: seq<LegalEvent>, e: LegalEvent)
    ensures Designated(events + [e]) == AppendNew(Designated(events), ListedStates(e))
  {
    assert (events + [e])[..|events|] == events;
  }

  lemma KnownEventAddsNoState(events: seq<LegalEvent>, e: LegalEvent, asOf: Day)
    requires Inert(e, asOf) || e in events
    ensures AppendNew(Designated(events), ListedStates(e)) == Designated(events)
  {
    if e in events {
      DesignatedElements(events);
      AppendKnownStates(Designated(events), ListedStates(e));
    } else {
      InertChangesNothing(NO_TABLES, e, asOf);
    }
  }

  lemma KnownEventsLeaveDecision(events: seq<LegalEvent>, more: seq<LegalEvent>, filingDate: Day, asOf: Day)
    requires forall e :: e in more ==> Inert(e, asOf) || e in events
    ensures SameDecision(Assess(events + more, filingDate, asOf), Assess(events, filingDate, asOf))
  {
    KnownEventsLeaveTables(events, more, asOf);
    KnownEventsLeaveDesignations(events, more, asOf);
    assert UnknownNegatives(events + more, asOf) == UnknownNegatives(events, asOf);
    assert HasUnitary(events + more) == HasUnitary(events);
    DecisionReadsOnly(events, events + more, filingDate, asOf);
  }
}
