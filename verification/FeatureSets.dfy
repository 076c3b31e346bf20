/**
 * The product feature tables of apps/api/migrations/versions/0021_product_features.py: their constraints, the two
 * triggers that freeze a confirmed feature set, and what holds after every run of statements.
 */
module FeatureSets {
  import opened Basics

  type Id = int

  datatype DescriptionRow = DescriptionRow(
    organization: Id, caseId: Id, version: int, text: string, sha256: string, createdBy: Id, createdAt: int)

  datatype SetRow = SetRow(
    organization: Id, caseId: Id, description: Id, version: int, parent: Option<Id>, status: string,
    splitter: string, createdBy: Id, createdAt: int, updatedAt: int,
    confirmedBy: Option<Id>, confirmedAt: Option<int>)

  datatype FeatureRow = FeatureRow(
    organization: Id, caseId: Id, featureSet: Id, code: string, text: string, spans: seq<(int, int)>,
    origin: string, sortOrder: int, createdAt: int, updatedAt: int)

  datatype Tables = Tables(
    organizations: set<Id>, cases: set<Id>, descriptions: map<Id, DescriptionRow>,
    sets: map<Id, SetRow>, features: map<Id, FeatureRow>)

  /** One row that a statement writes, with the cascade that a deleted row sets off. */
  datatype RowChange =
    | InsertOrganization(id: Id)
    | DeleteOrganization(id: Id)
    | InsertCase(id: Id)
    | DeleteCase(id: Id)
    | InsertDescription(id: Id, description: DescriptionRow)
    | InsertSet(id: Id, featureSet: SetRow)
    | UpdateSet(id: Id, newId: Id, featureSet: SetRow)
    | DeleteSet(id: Id)
    | InsertFeature(id: Id, feature: FeatureRow)
    | UpdateFeature(id: Id, newId: Id, feature: FeatureRow)
    | DeleteFeature(id: Id)

  // ----- Checks on one row -----

  predicate IsDigest(s: string) {
    |s| == 64 && forall c :: c in s ==> '0' <= c <= '9' || 'a' <= c <= 'f'
  }

  predicate DescriptionChecks(row: DescriptionRow) {
    IsDigest(row.sha256) && row.text != ""
  }

  predicate SetChecks(row: SetRow) {
    && |row.splitter| <= 64
    && row.status in ["draft", "confirmed"]
    && (row.status == "confirmed") == (row.confirmedBy.Some? && row.confirmedAt.Some?)
  }

  predicate FeatureChecks(row: FeatureRow) {
    |row.code| <= 16 && row.origin in ["split", "manual", "edited"] && row.text != ""
  }

  predicate VersionTaken(sets: map<Id, SetRow>, row: SetRow) {
    exists id :: id in sets && sets[id].caseId == row.caseId && sets[id].version == row.version
  }

  predicate DescriptionVersionTaken(descriptions: map<Id, DescriptionRow>, row: DescriptionRow) {
    exists id ::
      id in descriptions && descriptions[id].caseId == row.caseId && descriptions[id].version == row.version
  }

  predicate CodeTaken(features: map<Id, FeatureRow>, row: FeatureRow) {
    exists id :: id in features && features[id].featureSet == row.featureSet && features[id].code == row.code
  }

  predicate IsConfirmed(sets: map<Id, SetRow>, id: Id) {
    id in sets && sets[id].status == "confirmed"
  }

  // ----- One row -----

  /** The sets that go with a case. */
  function SetsOutside(sets: map<Id, SetRow>, caseId: Id): map<Id, SetRow> {
    map id | id in sets && sets[id].caseId != caseId :: sets[id]
  }

  function DescriptionsOutside(descriptions: map<Id, DescriptionRow>, caseId: Id): map<Id, DescriptionRow> {
    map id | id in descriptions && descriptions[id].caseId != caseId :: descriptions[id]
  }

  /** The features left when the sets `gone` and the case `caseId` have been deleted. */
  function FeaturesOutside(features: map<Id, FeatureRow>, gone: set<Id>, caseId: Id): map<Id, FeatureRow> {
    map id | id in features && features[id].featureSet !in gone && features[id].caseId != caseId :: features[id]
  }

  function FeaturesOutsideSet(features: map<Id, FeatureRow>, gone: Id): map<Id, FeatureRow> {
    map id | id in features && features[id].featureSet != gone :: features[id]
  }

  /** Whether a trigger refuses one of the rows that the deletion of a case takes with it. */
  predicate CaseIsLocked(t: Tables, caseId: Id) {
    || (exists id :: id in t.sets && t.sets[id].caseId == caseId && IsConfirmed(t.sets, id))
    || (exists id ::
          id in t.features && t.features[id].caseId == caseId && IsConfirmed(t.sets, t.features[id].featureSet))
  }

  /** The tables after one row; none when a trigger, a check or a unique key refuses it. */
  function ApplyRow(t: Tables, change: RowChange): Option<Tables> {
    match change
    case InsertOrganization(id) =>
      if id in t.organizations then None else Some(t.(organizations := t.organizations + {id}))
    case DeleteOrganization(id) => Some(t.(organizations := t.organizations - {id}))
    case InsertCase(id) =>
      if id in t.cases then None else Some(t.(cases := t.cases + {id}))
    case DeleteCase(id) =>
      if id !in t.cases then Some(t)
      else if CaseIsLocked(t, id) then None
      else
        var sets := SetsOutside(t.sets, id);
        Some(t.(cases := t.cases - {id}, descriptions := DescriptionsOutside(t.descriptions, id), sets := sets,
                features := FeaturesOutside(t.features, t.sets.Keys - sets.Keys, id)))
    case InsertDescription(id, row) =>
      if id in t.descriptions || !DescriptionChecks(row) || DescriptionVersionTaken(t.descriptions, row) then None
      else Some(t.(descriptions := t.descriptions[id := row]))
    case InsertSet(id, row) =>
      if id in t.sets || !SetChecks(row) || VersionTaken(t.sets, row) then None
      else Some(t.(sets := t.sets[id := row]))
    case UpdateSet(id, newId, row) =>
      if id !in t.sets then Some(t)
      else if t.sets[id].status == "confirmed" || row.organization != t.sets[id].organization then None
      else
        var others := t.sets - {id};
        if newId in others || !SetChecks(row) || VersionTaken(others, row) then None
        else Some(t.(sets := others[newId := row]))
    case DeleteSet(id) =>
      if id !in t.sets then Some(t)
      else if t.sets[id].status == "confirmed" then None
      else Some(t.(sets := t.sets - {id}, features := FeaturesOutsideSet(t.features, id)))
    case InsertFeature(id, row) =>
      if IsConfirmed(t.sets, row.featureSet) then None
      else if id in t.features || !FeatureChecks(row) || CodeTaken(t.features, row) then None
      else Some(t.(features := t.features[id := row]))
    case UpdateFeature(id, newId, row) =>
      if id !in t.features then Some(t)
      else if IsConfirmed(t.sets, t.features[id].featureSet) || IsConfirmed(t.sets, row.featureSet) then None
      else if row.organization != t.features[id].organization then None
      else
        var others := t.features - {id};
        if newId in others || !FeatureChecks(row) || CodeTaken(others, row) then None
        else Some(t.(features := others[newId := row]))
    case DeleteFeature(id) =>
      if id !in t.features then Some(t)
      else if IsConfirmed(t.sets, t.features[id].featureSet) then None
      else Some(t.(features := t.features - {id}))
  }

  // ----- Statements -----

  function Kind(change: RowChange): nat {
    match change
    case InsertOrganization(_) => 0
    case DeleteOrganization(_) => 1
    case InsertCase(_) => 2
    case DeleteCase(_) => 3
    case InsertDescription(_, _) => 4
    case InsertSet(_, _) => 5
    case UpdateSet(_, _, _) => 6
    case DeleteSet(_) => 7
    case InsertFeature(_, _) => 8
    case UpdateFeature(_, _, _) => 9
    case DeleteFeature(_) => 10
  }

  /** A statement writes any number of rows, all in one table and in one way. */
  type Statement = rows: seq<RowChange> | forall c :: c in rows ==> Kind(c) == Kind(rows[0])

  /** What the foreign keys demand when a statement ends. */
  predicate ForeignKeys(t: Tables) {
    && (forall id :: id in t.descriptions ==>
          t.descriptions[id].organization in t.organizations && t.descriptions[id].caseId in t.cases)
    && (forall id :: id in t.sets ==>
          && t.sets[id].organization in t.organizations && t.sets[id].caseId in t.cases
          && t.sets[id].description in t.descriptions
          && (t.sets[id].parent.Some? ==> t.sets[id].parent.value in t.sets))
    && (forall id :: id in t.features ==>
          && t.features[id].organization in t.organizations && t.features[id].caseId in t.cases
          && t.features[id].featureSet in t.sets)
  }

  function ApplyRows(t: Tables, rows: seq<RowChange>): Option<Tables> {
    if rows == [] then Some(t)
    else
      match ApplyRows(t, rows[..|rows| - 1])
      case None => None
      case Some(before) => ApplyRow(before, rows[|rows| - 1])
  }

  /** A statement takes effect as a whole, or leaves the tables as they were. */
  function After(t: Tables, statement: seq<RowChange>): Tables {
    match ApplyRows(t, statement)
    case None => t
    case Some(changed) => if ForeignKeys(changed) then changed else t
  }

  function AfterRun(t: Tables, run: seq<Statement>): Tables {
    if run == [] then t else After(AfterRun(t, run[..|run| - 1]), run[|run| - 1])
  }

  class Store {
    var organizations: set<Id>
    var cases: set<Id>
    var descriptions: map<Id, DescriptionRow>
    var sets: map<Id, SetRow>
    var features: map<Id, FeatureRow>

    ghost function Contents(): Tables
      reads this
    {
      Tables(organizations, cases, descriptions, sets, features)
    }

    constructor ()
      ensures Contents() == Tables({}, {}, map[], map[], map[])
    {
      organizations, cases := {}, {};
      descriptions, sets, features := map[], map[], map[];
    }

    /** The trigger on features: the set a feature leaves and the set it enters are both looked up. */
    method DenyFeaturesOfConfirmedSet(before: Option<FeatureRow>, after: Option<FeatureRow>)
      returns (raised: bool)
      ensures raised <==>
              || (before.Some? && IsConfirmed(sets, before.value.featureSet))
              || (after.Some? && IsConfirmed(sets, after.value.featureSet))
    {
      var targets := [
        if before.Some? then Some(before.value.featureSet) else None,
        if after.Some? then Some(after.value.featureSet) else None];
      raised := false;
      for i := 0 to |targets|
        invariant raised <==> exists k :: 0 <= k < i && targets[k].Some? && IsConfirmed(sets, targets[k].value)
      {
        if targets[i].Some? && IsConfirmed(sets, targets[i].value) {
          raised := true;
        }
      }
      assert targets[0] == if before.Some? then Some(before.value.featureSet) else None;
      assert targets[1] == if after.Some? then Some(after.value.featureSet) else None;
    }

    method ChangeSet(change: RowChange) returns (raised: bool)
      requires change.InsertSet? || change.UpdateSet? || change.DeleteSet?
      modifies this
      ensures raised <==> ApplyRow(old(Contents()), change).None?
      ensures Contents() == if raised then old(Contents()) else ApplyRow(old(Contents()), change).value
    {
      match change {
        case InsertSet(id, row) =>
          raised := id in sets || !SetChecks(row) || VersionTaken(sets, row);
          if !raised {
            sets := sets[id := row];
          }
        case UpdateSet(id, newId, row) =>
          if id !in sets { return false; }
          if sets[id].status == "confirmed" || row.organization != sets[id].organization { return true; }
          var others := sets - {id};
          raised := newId in others || !SetChecks(row) || VersionTaken(others, row);
          if !raised {
            sets := others[newId := row];
          }
        case DeleteSet(id) =>
          if id !in sets { return false; }
          raised := sets[id].status == "confirmed";
          if !raised {
            sets := sets - {id};
            features := FeaturesOutsideSet(features, id);
          }
      }
    }

    method ChangeFeature(change: RowChange) returns (raised: bool)
      requires change.InsertFeature? || change.UpdateFeature? || change.DeleteFeature?
      modifies this
      ensures raised <==> ApplyRow(old(Contents()), change).None?
      ensures Contents() == if raised then old(Contents()) else ApplyRow(old(Contents()), change).value
    {
      match change {
        case InsertFeature(id, row) =>
          raised := DenyFeaturesOfConfirmedSet(None, Some(row));
          if raised { return; }
          raised := id in features || !FeatureChecks(row) || CodeTaken(features, row);
          if !raised {
            features := features[id := row];
          }
        case UpdateFeature(id, newId, row) =>
          if id !in features { return false; }
          raised := DenyFeaturesOfConfirmedSet(Some(features[id]), Some(row));
          if raised || row.organization != features[id].organization { return true; }
          var others := features - {id};
          raised := newId in others || !FeatureChecks(row) || CodeTaken(others, row);
          if !raised {
            features := others[newId := row];
          }
        case DeleteFeature(id) =>
          if id !in features { return false; }
          raised := DenyFeaturesOfConfirmedSet(Some(features[id]), None);
          if !raised {
            features := features - {id};
          }
      }
    }

    method ChangeOther(change: RowChange) returns (raised: bool)
      requires Kind(change) < 5
      modifies this
      ensures raised <==> ApplyRow(old(Contents()), change).None?
      ensures Contents() == if raised then old(Contents()) else ApplyRow(old(Contents()), change).value
    {
      raised := false;
      match change {
        case InsertOrganization(id) =>
          raised := id in organizations;
          if !raised {
            organizations := organizations + {id};
          }
        case DeleteOrganization(id) =>
          organizations := organizations - {id};
        case InsertCase(id) =>
          raised := id in cases;
          if !raised {
            cases := cases + {id};
          }
        case DeleteCase(id) =>
          if id in cases {
            raised := CaseIsLocked(Tables(organizations, cases, descriptions, sets, features), id);
            if !raised {
              var left := SetsOutside(sets, id);
              cases := cases - {id};
              descriptions := DescriptionsOutside(descriptions, id);
              features := FeaturesOutside(features, sets.Keys - left.Keys, id);
              sets := left;
            }
          }
        case InsertDescription(id, row) =>
          raised := id in descriptions || !DescriptionChecks(row) || DescriptionVersionTaken(descriptions, row);
          if !raised {
            descriptions := descriptions[id := row];
          }
      }
    }

    /** Writes the rows one after the other and puts everything back when one of them is refused. */
    method Execute(statement: Statement) returns (accepted: bool)
      modifies this
      ensures Contents() == After(old(Contents()), statement)
      ensures accepted <==>
              && ApplyRows(old(Contents()), statement).Some?
              && ForeignKeys(ApplyRows(old(Contents()), statement).value)
    {
      var before := Tables(organizations, cases, descriptions, sets, features);
      var raised := false;
      var i := 0;
      while i < |statement| && !raised
        invariant 0 <= i <= |statement|
        invariant !raised ==> ApplyRows(before, statement[..i]) == Some(Contents())
        invariant raised ==> ApplyRows(before, statement) == None
      {
        var change := statement[i];
        assert statement[..i + 1][..i] == statement[..i];
        if change.InsertSet? || change.UpdateSet? || change.DeleteSet? {
          raised := ChangeSet(change);
        } else if change.InsertFeature? || change.UpdateFeature? || change.DeleteFeature? {
          raised := ChangeFeature(change);
        } else {
          raised := ChangeOther(change);
        }
        i := i + 1;
        if raised {
          RefusedRowRefusesAll(before, statement, i);
        }
      }
      assert !raised ==> statement[..i] == statement;
      accepted := !raised && ForeignKeys(Tables(organizations, cases, descriptions, sets, features));
      if !accepted {
        organizations, cases := before.organizations, before.cases;
        descriptions, sets, features := before.descriptions, before.sets, before.features;
      }
    }
  }

  lemma {:induction false} RefusedRowRefusesAll(t: Tables, rows: seq<RowChange>, i: nat)
    requires i <= |rows|
    requires ApplyRows(t, rows[..i]) == None
    ensures ApplyRows(t, rows) == None
  {
    if i == |rows| {
      assert rows[..i] == rows;
    } else {
      assert rows[..|rows| - 1][..i] == rows[..i];
      RefusedRowRefusesAll(t, rows[..|rows| - 1], i);
    }
  }

  // ----- What stays -----

  function FeaturesOf(t: Tables, id: Id): map<Id, FeatureRow> {
    map f | f in t.features && t.features[f].featureSet == id :: t.features[f]
  }

  /** The confirmed set is still there, row for row, with the same features. */
  predicate Untouched(before: Tables, after: Tables, id: Id)
    requires id in before.sets
  {
    && id in after.sets && after.sets[id] == before.sets[id]
    && FeaturesOf(after, id) == FeaturesOf(before, id)
  }

  lemma CaseDeletionKeepsConfirmed(t: Tables, caseId: Id, id: Id)
    requires IsConfirmed(t.sets, id) && caseId in t.cases && !CaseIsLocked(t, caseId)
    ensures Untouched(t, ApplyRow(t, DeleteCase(caseId)).value, id)
  {
    var after := ApplyRow(t, DeleteCase(caseId)).value;
    assert t.sets[id].caseId != caseId;
    forall f | f in FeaturesOf(t, id)
      ensures f in FeaturesOf(after, id)
    {
      assert t.features[f].caseId != caseId;
    }
    assert FeaturesOf(after, id).Keys == FeaturesOf(t, id).Keys;
  }

  lemma SetRowKeepsConfirmed(t: Tables, change: RowChange, id: Id)
    requires change.InsertSet? || change.UpdateSet? || change.DeleteSet?
    requires IsConfirmed(t.sets, id) && ApplyRow(t, change).Some?
    ensures Untouched(t, ApplyRow(t, change).value, id)
  {
    var after := ApplyRow(t, change).value;
    assert FeaturesOf(after, id).Keys == FeaturesOf(t, id).Keys;
  }

  lemma FeatureRowKeepsConfirmed(t: Tables, change: RowChange, id: Id)
    requires change.InsertFeature? || change.UpdateFeature? || change.DeleteFeature?
    requires IsConfirmed(t.sets, id) && ApplyRow(t, change).Some?
    ensures Untouched(t, ApplyRow(t, change).value, id)
  {
    var after := ApplyRow(t, change).value;
    assert FeaturesOf(after, id).Keys == FeaturesOf(t, id).Keys;
  }

  lemma RowKeepsConfirmed(t: Tables, change: RowChange, id: Id)
    requires IsConfirmed(t.sets, id) && ApplyRow(t, change).Some?
    ensures Untouched(t, ApplyRow(t, change).value, id)
  {
    if change.InsertSet? || change.UpdateSet? || change.DeleteSet? {
      SetRowKeepsConfirmed(t, change, id);
    } else if change.InsertFeature? || change.UpdateFeature? || change.DeleteFeature? {
      FeatureRowKeepsConfirmed(t, change, id);
    } else if change.DeleteCase? && change.id in t.cases {
      CaseDeletionKeepsConfirmed(t, change.id, id);
    }
  }

  lemma {:induction false} RowsKeepConfirmed(t: Tables, rows: seq<RowChange>, id: Id)
    requires IsConfirmed(t.sets, id) && ApplyRows(t, rows).Some?
    ensures Untouched(t, ApplyRows(t, rows).value, id)
  {
    if rows != [] {
      RowsKeepConfirmed(t, rows[..|rows| - 1], id);
      RowKeepsConfirmed(ApplyRows(t, rows[..|rows| - 1]).value, rows[|rows| - 1], id);
    }
  }

  /** Once a feature set is confirmed, no run of statements changes its row or its collection of features. */
  lemma {:induction false} ConfirmedNeverChanges(t: Tables, run: seq<Statement>, id: Id)
    requires IsConfirmed(t.sets, id)
    ensures Untouched(t, AfterRun(t, run), id)
  {
    if run != [] {
      ConfirmedNeverChanges(t, run[..|run| - 1], id);
      var before := AfterRun(t, run[..|run| - 1]);
      if ApplyRows(before, run[|run| - 1]).Some? {
        RowsKeepConfirmed(before, run[|run| - 1], id);
      }
    }
  }

  /** Whatever has been confirmed at some point of a run is the same at every later point. */
  lemma ConfirmedSince(t: Tables, run: seq<Statement>, earlier: nat, later: nat, id: Id)
    requires earlier <= later <= |run|
    requires IsConfirmed(AfterRun(t, run[..earlier]).sets, id)
    ensures Untouched(AfterRun(t, run[..earlier]), AfterRun(t, run[..later]), id)
  {
    var rest := run[earlier..later];
    assert run[..later] == run[..earlier] + rest;
    RunsCompose(t, run[..earlier], rest);
    ConfirmedNeverChanges(AfterRun(t, run[..earlier]), rest, id);
  }

  lemma {:induction false} RunsCompose(t: Tables, first: seq<Statement>, second: seq<Statement>)
    ensures AfterRun(t, first + second) == AfterRun(AfterRun(t, first), second)
  {
    if second == [] {
      assert first + second == first;
    } else {
      var front := second[..|second| - 1];
      assert (first + second)[..|first + second| - 1] == first + front;
      RunsCompose(t, first, front);
    }
  }

  // ----- What every reachable state satisfies -----

  predicate RowsChecked(t: Tables) {
    && (forall id :: id in t.descriptions ==> DescriptionChecks(t.descriptions[id]))
    && (forall id :: id in t.sets ==> SetChecks(t.sets[id]))
    && (forall id :: id in t.features ==> FeatureChecks(t.features[id]))
  }

  predicate UniqueKeys(t: Tables) {
    && (forall a, b :: a in t.descriptions && b in t.descriptions && a != b ==>
          t.descriptions[a].caseId != t.descriptions[b].caseId
          || t.descriptions[a].version != t.descriptions[b].version)
    && (forall a, b :: a in t.sets && b in t.sets && a != b ==>
          t.sets[a].caseId != t.sets[b].caseId || t.sets[a].version != t.sets[b].version)
    && (forall a, b :: a in t.features && b in t.features && a != b ==>
          t.features[a].featureSet != t.features[b].featureSet || t.features[a].code != t.features[b].code)
  }

  predicate Consistent(t: Tables) {
    RowsChecked(t) && UniqueKeys(t) && ForeignKeys(t)
  }

  lemma RowKeepsChecks(t: Tables, change: RowChange)
    requires RowsChecked(t) && ApplyRow(t, change).Some?
    ensures RowsChecked(ApplyRow(t, change).value)
  {
  }

  lemma RowKeepsUniqueKeys(t: Tables, change: RowChange)
    requires UniqueKeys(t) && ApplyRow(t, change).Some?
    ensures UniqueKeys(ApplyRow(t, change).value)
  {
  }

  lemma {:induction false} RowsKeepChecks(t: Tables, rows: seq<RowChange>)
    requires RowsChecked(t) && UniqueKeys(t) && ApplyRows(t, rows).Some?
    ensures RowsChecked(ApplyRows(t, rows).value) && UniqueKeys(ApplyRows(t, rows).value)
  {
    if rows != [] {
      RowsKeepChecks(t, rows[..|rows| - 1]);
      RowKeepsChecks(ApplyRows(t, rows[..|rows| - 1]).value, rows[|rows| - 1]);
      RowKeepsUniqueKeys(ApplyRows(t, rows[..|rows| - 1]).value, rows[|rows| - 1]);
    }
  }

  /** Every run keeps the checks, the unique keys and the foreign keys. */
  lemma {:induction false} RunKeepsConsistency(t: Tables, run: seq<Statement>)
    requires Consistent(t)
    ensures Consistent(AfterRun(t, run))
  {
    if run != [] {
      RunKeepsConsistency(t, run[..|run| - 1]);
      var before := AfterRun(t, run[..|run| - 1]);
      if ApplyRows(before, run[|run| - 1]).Some? {
        RowsKeepChecks(before, run[|run| - 1]);
      }
    }
  }

  // ----- What a confirmed set rests on -----

  /** Without a deleted case, no description goes; descriptions are only ever added. */
  lemma {:induction false} RowsKeepDescriptions(t: Tables, rows: seq<RowChange>, id: Id)
    requires id in t.descriptions && ApplyRows(t, rows).Some?
    requires forall c :: c in rows ==> !c.DeleteCase?
    ensures id in ApplyRows(t, rows).value.descriptions
    ensures ApplyRows(t, rows).value.descriptions[id] == t.descriptions[id]
  {
    if rows != [] {
      var front, last := rows[..|rows| - 1], rows[|rows| - 1];
      assert last in rows;
      assert forall c :: c in front ==> c in rows;
      RowsKeepDescriptions(t, front, id);
    }
  }

  /** Deleted cases only take descriptions away. */
  lemma {:induction false} CaseDeletionsOnlyRemove(t: Tables, rows: seq<RowChange>, id: Id)
    requires ApplyRows(t, rows).Some?
    requires forall c :: c in rows ==> c.DeleteCase?
    ensures id in ApplyRows(t, rows).value.descriptions ==>
              id in t.descriptions && ApplyRows(t, rows).value.descriptions[id] == t.descriptions[id]
  {
    if rows != [] {
      var front, last := rows[..|rows| - 1], rows[|rows| - 1];
      assert last in rows;
      assert forall c :: c in front ==> c in rows;
      CaseDeletionsOnlyRemove(t, front, id);
    }
  }

  lemma StatementKeepsDescription(t: Tables, statement: Statement, id: Id)
    requires ForeignKeys(t) && IsConfirmed(t.sets, id)
    ensures var d := t.sets[id].description;
            d in After(t, statement).descriptions && After(t, statement).descriptions[d] == t.descriptions[d]
  {
    var d := t.sets[id].description;
    if ApplyRows(t, statement).Some? {
      var changed := ApplyRows(t, statement).value;
      RowsKeepConfirmed(t, statement, id);
      if forall c :: c in statement ==> !c.DeleteCase? {
        RowsKeepDescriptions(t, statement, d);
      } else {
        assert forall c :: c in statement ==> c.DeleteCase?;
        CaseDeletionsOnlyRemove(t, statement, d);
      }
    }
  }

  /**
   * The text that the spans of a confirmed set point into stays as well: the description of the set is never
   * edited or lost, and its case, its organization and its parent set stay in place.
   */
  lemma {:induction false} ConfirmedKeepsItsGround(t: Tables, run: seq<Statement>, id: Id)
    requires Consistent(t) && IsConfirmed(t.sets, id)
    ensures var after := AfterRun(t, run);
            var row := t.sets[id];
            && row.description in after.descriptions
            && after.descriptions[row.description] == t.descriptions[row.description]
            && row.caseId in after.cases && row.organization in after.organizations
            && (row.parent.Some? ==> row.parent.value in after.sets)
  {
    RunKeepsConsistency(t, run);
    ConfirmedNeverChanges(t, run, id);
    if run != [] {
      var before := AfterRun(t, run[..|run| - 1]);
      ConfirmedKeepsItsGround(t, run[..|run| - 1], id);
      RunKeepsConsistency(t, run[..|run| - 1]);
      ConfirmedNeverChanges(t, run[..|run| - 1], id);
      StatementKeepsDescription(before, run[|run| - 1], id);
    }
  }

  /** A feature can be deleted exactly as long as its set is not confirmed. */
  lemma FeatureDeletionRefusedExactly(t: Tables, id: Id)
    requires Consistent(t) && id in t.features
    ensures id in After(t, [DeleteFeature(id)]).features <==> IsConfirmed(t.sets, t.features[id].featureSet)
  {
    OneRow(t, DeleteFeature(id));
  }

  /** A set can be deleted exactly when it is not confirmed and no other set was derived from it. */
  lemma SetDeletionRefusedExactly(t: Tables, id: Id)
    requires Consistent(t) && id in t.sets
    ensures id in After(t, [DeleteSet(id)]).sets <==>
            || IsConfirmed(t.sets, id)
            || exists child :: child in t.sets && child != id && t.sets[child].parent == Some(id)
  {
    OneRow(t, DeleteSet(id));
    if !IsConfirmed(t.sets, id) {
      var after := ApplyRow(t, DeleteSet(id)).value;
      assert forall f :: f in after.features ==> after.features[f].featureSet in after.sets;
      assert forall child :: child in after.sets ==> after.sets[child] == t.sets[child];
      if child :| child in t.sets && child != id && t.sets[child].parent == Some(id) {
        assert child in after.sets && id !in after.sets;
      } else {
        assert ForeignKeys(after);
      }
    }
  }

  lemma OneRow(t: Tables, change: RowChange)
    ensures ApplyRows(t, [change]) == ApplyRow(t, change)
  {
    assert [change][..0] == [];
    assert ApplyRows(t, []) == Some(t);
  }

  /** From empty tables on, a set is confirmed exactly when it says by whom and when. */
  lemma ConfirmationIsComplete(run: seq<Statement>, id: Id)
    requires id in AfterRun(Tables({}, {}, map[], map[], map[]), run).sets
    ensures var row := AfterRun(Tables({}, {}, map[], map[], map[]), run).sets[id];
            && (row.status == "confirmed" <==> row.confirmedBy.Some? && row.confirmedAt.Some?)
            && (row.status == "draft" <==> row.confirmedBy.None? || row.confirmedAt.None?)
  {
    RunKeepsConsistency(Tables({}, {}, map[], map[], map[]), run);
  }
}
