/**
 * The legal-event payload as a JSON tree: collecting its event items wherever they occur, reading them,
 * and trimming the payload to the stored extract. How a scalar is turned into text, and how an item's
 * payload lines and gazette date are parsed, are parameters.
 */
module OpsExtract {
  import opened Basics
  import opened Calendar
  import opened Trimming
  import opened EpLegalStatus
  import opened EpTheorems

  datatype Field = Field(key: string, value: Json)

  datatype Json = Scalar(text: string) | List(items: seq<Json>) | Object(fields: seq<Field>)

  datatype Reader = Reader(
    str: Json -> string,
    gazette: Option<Json> -> Option<Day>,
    lines: (Option<Json>, string) -> map<string, string>)

  const LEGAL := "ops:legal"
  const CODE := "@code"
  const DESCRIPTION := "@desc"
  const INFLUENCE := "@infl"
  const LINES := "ops:pre"
  const GAZETTE := "ops:L007EP"
  const EVENT_FIELDS := [CODE, DESCRIPTION, INFLUENCE, LINES, "ops:L001EP", GAZETTE]
  const KEEP_CODES := ["AK", "PGFP", "PGRI", "26N", "P01"]

  function Get(fields: seq<Field>, key: string): Option<Json> {
    if fields == [] then None
    else if fields[0].key == key then Some(fields[0].value)
    else Get(fields[1..], key)
  }

  // ----- collecting the event items

  function OwnItems(fields: seq<Field>): seq<Json> {
    match Get(fields, LEGAL)
    case None => []
    case Some(List(items)) => items
    case Some(single) => [single]
  }

  /** Every item under an "ops:legal" member, at any depth, items inside items included. */
  function LegalItems(node: Json): seq<Json> {
    match node
    case Scalar(_) => []
    case List(items) => ItemsOfAll(items)
    case Object(fields) => OwnItems(fields) + ItemsOfFields(fields)
  }

  function ItemsOfAll(nodes: seq<Json>): seq<Json> {
    if nodes == [] then [] else LegalItems(nodes[0]) + ItemsOfAll(nodes[1..])
  }

  function ItemsOfFields(fields: seq<Field>): seq<Json> {
    if fields == [] then [] else LegalItems(fields[0].value) + ItemsOfFields(fields[1..])
  }

  class ItemCollector {
    var raw: seq<Json>

    constructor ()
      ensures raw == []
    {
      raw := [];
    }

    method Walk(node: Json)
      modifies this
      ensures raw == old(raw) + LegalItems(node)
      decreases node
    {
      match node {
        case Scalar(_) =>
        case List(items) =>
          for i := 0 to |items|
            invariant old(raw) + ItemsOfAll(items) == raw + ItemsOfAll(items[i..])
          {
            assert items[i..][1..] == items[i + 1..];
            ConcatAssociates(raw, LegalItems(items[i]), ItemsOfAll(items[i + 1..]));
            Walk(items[i]);
          }
        case Object(fields) =>
          raw := raw + OwnItems(fields);
          ghost var start := raw;
          ConcatAssociates(old(raw), OwnItems(fields), ItemsOfFields(fields));
          for i := 0 to |fields|
            invariant start + ItemsOfFields(fields) == raw + ItemsOfFields(fields[i..])
          {
            assert fields[i..][1..] == fields[i + 1..];
            ConcatAssociates(raw, LegalItems(fields[i].value), ItemsOfFields(fields[i + 1..]));
            Walk(fields[i].value);
          }
      }
    }
  }

  // ----- reading an item

  /** `str(item.get(key, fallback))` */
  function TextAt(reader: Reader, fields: seq<Field>, key: string, fallback: string): string {
    match Get(fields, key)
    case None => fallback
    case Some(value) => reader.str(value)
  }

  function ReadFields(reader: Reader, fields: seq<Field>): LegalEvent {
    var description := TextAt(reader, fields, DESCRIPTION, "");
    LegalEvent(
      Strip(TextAt(reader, fields, CODE, "")),
      Strip(description),
      TextAt(reader, fields, INFLUENCE, " "),
      reader.gazette(Get(fields, GAZETTE)),
      reader.lines(Get(fields, LINES), description))
  }

  predicate AllObjects(items: seq<Json>) {
    forall i :: 0 <= i < |items| ==> items[i].Object?
  }

  function EventOf(reader: Reader, item: Json): seq<LegalEvent> {
    if item.Object? then [ReadFields(reader, item.fields)] else []
  }

  function Reading(reader: Reader): Json -> seq<LegalEvent> {
    item => EventOf(reader, item)
  }

  function EventsOf(reader: Reader, items: seq<Json>): seq<LegalEvent> {
    FlatMap(items, Reading(reader))
  }

  /** The events of a list of items; None where the original raises because an item is not an object. */
  function ReadAll(reader: Reader, items: seq<Json>): Option<seq<LegalEvent>> {
    if AllObjects(items) then Some(EventsOf(reader, items)) else None
  }

  method ReadItems(items: seq<Json>, reader: Reader) returns (events: Option<seq<LegalEvent>>)
    ensures events == ReadAll(reader, items)
  {
    var read := [];
    ghost var done: seq<Json> := [];
    for i := 0 to |items|
      invariant done == items[..i] && AllObjects(done) && EventsOf(reader, done) == read
    {
      TakeOneMore(items, i);
      FlatMapOneMore(done, items[i], Reading(reader));
      done := done + [items[i]];
      if !items[i].Object? {
        return None;
      }
      read := read + [ReadFields(reader, items[i].fields)];
    }
    assert items[..|items|] == items;
    return Some(read);
  }

  method ParseInpadoc(payload: Json, reader: Reader) returns (events: Option<seq<LegalEvent>>)
    ensures events == ReadAll(reader, LegalItems(payload))
  {
    var collector := new ItemCollector();
    collector.Walk(payload);
    assert collector.raw == LegalItems(payload);
    events := ReadItems(collector.raw, reader);
  }

  // ----- the extract

  predicate IsKept(e: LegalEvent) {
    e.code in KEEP_CODES || (e.code != "" && e.code[0] == 'U') || IsNegative(e)
  }

  function KeepFields(fields: seq<Field>): seq<Field> {
    if fields == [] then []
    else if fields[0].key in EVENT_FIELDS then [fields[0]] + KeepFields(fields[1..])
    else KeepFields(fields[1..])
  }

  /** The part of the extract that comes from one item: reduced to the members the rules read, or nothing. */
  function KeepItem(reader: Reader, item: Json): seq<Json> {
    if item.Object? && IsKept(ReadFields(reader, item.fields)) then [Object(KeepFields(item.fields))] else []
  }

  function Keeping(reader: Reader): Json -> seq<Json> {
    item => KeepItem(reader, item)
  }

  function KeepItems(reader: Reader, items: seq<Json>): seq<Json> {
    FlatMap(items, Keeping(reader))
  }

  /** The stored extract; None where the original raises because an item is not an object. */
  function Extract(reader: Reader, payload: Json): Option<Json> {
    var items := LegalItems(payload);
    if ReadAll(reader, items).None? then None else Some(Object([Field(LEGAL, List(KeepItems(reader, items)))]))
  }

  lemma {:induction false} KeepFieldsKeeps(fields: seq<Field>, key: string)
    ensures Get(KeepFields(fields), key) == if key in EVENT_FIELDS then Get(fields, key) else None
  {
    if fields != [] {
      KeepFieldsKeeps(fields[1..], key);
      assert ([fields[0]] + KeepFields(fields[1..]))[1..] == KeepFields(fields[1..]);
    }
  }

  lemma {:induction false} KeepFieldsTwice(fields: seq<Field>)
    ensures KeepFields(KeepFields(fields)) == KeepFields(fields)
    ensures forall f :: f in KeepFields(fields) ==> f in fields
  {
    if fields != [] {
      KeepFieldsTwice(fields[1..]);
      assert ([fields[0]] + KeepFields(fields[1..]))[1..] == KeepFields(fields[1..]);
    }
  }

  /** A reduced item reads as the item did. */
  lemma ReducedReadsSame(reader: Reader, fields: seq<Field>)
    ensures ReadFields(reader, KeepFields(fields)) == ReadFields(reader, fields)
  {
    assert EVENT_FIELDS[0] == CODE && EVENT_FIELDS[1] == DESCRIPTION && EVENT_FIELDS[2] == INFLUENCE;
    assert EVENT_FIELDS[3] == LINES && EVENT_FIELDS[5] == GAZETTE;
    KeepFieldsKeeps(fields, CODE);
    KeepFieldsKeeps(fields, DESCRIPTION);
    KeepFieldsKeeps(fields, INFLUENCE);
    KeepFieldsKeeps(fields, LINES);
    KeepFieldsKeeps(fields, GAZETTE);
  }

  lemma KeptItemOrigin(reader: Reader, items: seq<Json>, k: Json) returns (i: Json)
    requires k in KeepItems(reader, items)
    ensures i in items && i.Object? && k == Object(KeepFields(i.fields)) && IsKept(ReadFields(reader, i.fields))
  {
    FlatMapMember(items, Keeping(reader), k);
    i :| i in items && k in KeepItem(reader, i);
  }

  lemma KeptItemsAreObjects(reader: Reader, items: seq<Json>)
    ensures AllObjects(KeepItems(reader, items))
  {
    var kept := KeepItems(reader, items);
    forall i | 0 <= i < |kept|
      ensures kept[i].Object?
    {
      var origin := KeptItemOrigin(reader, items, kept[i]);
    }
  }

  lemma KeptItemReadsAsKeptEvent(reader: Reader, item: Json)
    ensures FlatMap(KeepItem(reader, item), Reading(reader)) == FlatMap(EventOf(reader, item), Only(IsKept))
  {
    if item.Object? {
      var event := ReadFields(reader, item.fields);
      FlatMapOfOne(event, Only(IsKept));
      ReducedReadsSame(reader, item.fields);
      FlatMapOfOne(Object(KeepFields(item.fields)), Reading(reader));
    }
  }

  /** The kept items, read back, are the kept events. */
  lemma KeptItemsReadAsKeptEvents(reader: Reader, items: seq<Json>)
    ensures EventsOf(reader, KeepItems(reader, items)) == Filter(EventsOf(reader, items), IsKept)
  {
    forall x | x in items
      ensures FlatMap(Keeping(reader)(x), Reading(reader)) == FlatMap(Reading(reader)(x), Only(IsKept))
    {
      KeptItemReadsAsKeptEvent(reader, x);
    }
    FlatMapsAgree(items, Keeping(reader), Reading(reader), Reading(reader), Only(IsKept));
  }

  // ----- items nested in items

  lemma {:induction false} InItemsOfAll(nodes: seq<Json>, x: Json)
    ensures x in ItemsOfAll(nodes) <==> exists n :: n in nodes && x in LegalItems(n)
  {
    if nodes != [] {
      InItemsOfAll(nodes[1..], x);
      assert nodes[0] in nodes && forall n :: n in nodes <==> n == nodes[0] || n in nodes[1..];
      assert x in ItemsOfAll(nodes) <==> x in LegalItems(nodes[0]) || x in ItemsOfAll(nodes[1..]);
    }
  }

  lemma {:induction false} InItemsOfFields(fields: seq<Field>, x: Json)
    ensures x in ItemsOfFields(fields) <==> exists f :: f in fields && x in LegalItems(f.value)
  {
    if fields != [] {
      InItemsOfFields(fields[1..], x);
      assert fields[0] in fields && forall f :: f in fields <==> f == fields[0] || f in fields[1..];
      assert x in ItemsOfFields(fields) <==> x in LegalItems(fields[0].value) || x in ItemsOfFields(fields[1..]);
    }
  }

  lemma GetIsField(fields: seq<Field>, key: string)
    requires Get(fields, key).Some?
    ensures exists f :: f in fields && f.key == key && f.value == Get(fields, key).value
  {
    if fields[0].key != key {
      GetIsField(fields[1..], key);
    }
  }

  /** What an item contains is collected together with the item. */
  lemma {:induction false} ItemsInsideItems(node: Json, i: Json, x: Json)
    requires i in LegalItems(node) && x in LegalItems(i)
    ensures x in LegalItems(node)
    decreases node
  {
    match node {
      case Scalar(_) =>
      case List(items) =>
        InItemsOfAll(items, i);
        InItemsOfAll(items, x);
        var n :| n in items && i in LegalItems(n);
        ItemsInsideItems(n, i, x);
      case Object(fields) =>
        InItemsOfFields(fields, x);
        if i in ItemsOfFields(fields) {
          InItemsOfFields(fields, i);
          var f :| f in fields && i in LegalItems(f.value);
          ItemsInsideItems(f.value, i, x);
        } else {
          GetIsField(fields, LEGAL);
          var f :| f in fields && f.key == LEGAL && f.value == Get(fields, LEGAL).value;
          if f.value.List? {
            InItemsOfAll(f.value.items, x);
          }
        }
    }
  }

  /** Reducing an item adds nothing to what it contains. */
  lemma ReducedContainsNoMore(fields: seq<Field>, x: Json)
    requires x in LegalItems(Object(KeepFields(fields)))
    ensures x in LegalItems(Object(fields))
  {
    KeepFieldsKeeps(fields, LEGAL);
    KeepFieldsTwice(fields);
    InItemsOfFields(KeepFields(fields), x);
    InItemsOfFields(fields, x);
  }

  /** The items collected again from inside the kept items. */
  function Nested(reader: Reader, payload: Json): seq<Json> {
    ItemsOfAll(KeepItems(reader, LegalItems(payload)))
  }

  lemma ExtractItems(reader: Reader, payload: Json)
    requires Extract(reader, payload).Some?
    ensures LegalItems(Extract(reader, payload).value)
            == KeepItems(reader, LegalItems(payload)) + Nested(reader, payload)
  {
    var kept := KeepItems(reader, LegalItems(payload));
    var fields := [Field(LEGAL, List(kept))];
    assert fields[1..] == [] && ItemsOfFields([]) == [];
    assert ItemsOfFields(fields) == LegalItems(List(kept)) + [];
    assert Extract(reader, payload).value == Object(fields);
  }

  lemma NestedItemsWereItems(reader: Reader, payload: Json, x: Json)
    requires x in Nested(reader, payload)
    ensures x in LegalItems(payload)
  {
    var items := LegalItems(payload);
    InItemsOfAll(KeepItems(reader, items), x);
    var k :| k in KeepItems(reader, items) && x in LegalItems(k);
    var i := KeptItemOrigin(reader, items, k);
    ReducedContainsNoMore(i.fields, x);
    ItemsInsideItems(payload, i, x);
  }

  lemma FewerItemsFewerEvents(reader: Reader, items: seq<Json>, all: seq<Json>)
    requires AllObjects(all) && forall x :: x in items ==> x in all
    ensures AllObjects(items)
    ensures forall e :: e in EventsOf(reader, items) ==> e in EventsOf(reader, all)
  {
    forall i | 0 <= i < |items|
      ensures items[i].Object?
    {
      assert items[i] in all;
    }
    forall e | e in EventsOf(reader, items)
      ensures e in EventsOf(reader, all)
    {
      FlatMapMember(items, Reading(reader), e);
      FlatMapMember(all, Reading(reader), e);
    }
  }

  // ----- what the extract preserves

  lemma DroppedEventsAreInert(e: LegalEvent, asOf: Day)
    requires !IsKept(e)
    ensures Inert(e, asOf)
  {
    assert KEEP_CODES[0] == DESIGNATION && KEEP_CODES[1] == FEE && KEEP_CODES[2] == REINSTATEMENT;
  }

  lemma NestedEventsWereEvents(reader: Reader, payload: Json)
    requires AllObjects(LegalItems(payload))
    ensures AllObjects(Nested(reader, payload))
    ensures forall e :: e in EventsOf(reader, Nested(reader, payload)) ==> e in EventsOf(reader, LegalItems(payload))
  {
    forall x | x in Nested(reader, payload)
      ensures x in LegalItems(payload)
    {
      NestedItemsWereItems(reader, payload, x);
    }
    FewerItemsFewerEvents(reader, Nested(reader, payload), LegalItems(payload));
  }

  /** The events read back from the extract: the kept events, then those nested inside kept items once more. */
  lemma ExtractEvents(reader: Reader, payload: Json) returns (more: seq<LegalEvent>)
    requires ReadAll(reader, LegalItems(payload)).Some?
    ensures Extract(reader, payload).Some?
    ensures var events := ReadAll(reader, LegalItems(payload)).value;
            && ReadAll(reader, LegalItems(Extract(reader, payload).value)) == Some(Filter(events, IsKept) + more)
            && (forall e :: e in more ==> e in events)
            && more == EventsOf(reader, Nested(reader, payload))
  {
    var items, nested := LegalItems(payload), Nested(reader, payload);
    more := EventsOf(reader, nested);
    NestedEventsWereEvents(reader, payload);
    ExtractItems(reader, payload);
    KeptItemsReadAsKeptEvents(reader, items);
    KeptItemsAreObjects(reader, items);
    FlatMapConcat(KeepItems(reader, items), nested, Reading(reader));
    assert AllObjects(KeepItems(reader, items) + nested);
  }

  /** For every payload the extract gives the same status, term, countries and review reasons. */
  lemma ExtractKeepsDecision(reader: Reader, payload: Json, filingDate: Day, asOf: Day)
    requires ReadAll(reader, LegalItems(payload)).Some?
    ensures Extract(reader, payload).Some?
    ensures ReadAll(reader, LegalItems(Extract(reader, payload).value)).Some?
    ensures SameDecision(
              Assess(ReadAll(reader, LegalItems(Extract(reader, payload).value)).value, filingDate, asOf),
              Assess(ReadAll(reader, LegalItems(payload)).value, filingDate, asOf))
  {
    var events := ReadAll(reader, LegalItems(payload)).value;
    var more := ExtractEvents(reader, payload);
    var kept := Filter(events, IsKept);
    FilterElements(events, IsKept);
    forall e | e in events && !IsKept(e)
      ensures Inert(e, asOf)
    {
      DroppedEventsAreInert(e, asOf);
    }
    InertLeavesDecision(events, IsKept, filingDate, asOf);
    KnownEventsLeaveDecision(kept, more, filingDate, asOf);
  }

  predicate Subsequence<T(==)>(a: seq<T>, b: seq<T>)
    decreases |b|
  {
    a == []
    || (b != [] && ((a[|a| - 1] == b[|b| - 1] && Subsequence(a[..|a| - 1], b[..|b| - 1]))
                    || Subsequence(a, b[..|b| - 1])))
  }

  lemma {:induction false} SubsequenceGrows<T>(a: seq<T>, b: seq<T>, more: seq<T>)
    requires Subsequence(a, b)
    ensures Subsequence(a + more, b + more) && Subsequence(a, b + more)
    decreases |more|
  {
    if more == [] {
      assert a + more == a && b + more == b;
    } else {
      var front, last := more[..|more| - 1], more[|more| - 1];
      SubsequenceGrows(a, b, front);
      assert (a + more)[..|a + more| - 1] == a + front && (b + more)[..|b + more| - 1] == b + front;
    }
  }

  /** Leaving elements out leaves results out. */
  lemma {:induction false} FewerGiveSubsequence<A, B>(s: seq<A>, choose: A -> seq<A>, f: A -> seq<B>)
    requires forall x :: x in s ==> choose(x) == [x] || choose(x) == []
    ensures Subsequence(FlatMap(FlatMap(s, choose), f), FlatMap(s, f))
  {
    if s != [] {
      var front, last := s[..|s| - 1], s[|s| - 1];
      assert forall x :: x in front ==> x in s;
      FewerGiveSubsequence(front, choose, f);
      assert last in s;
      SubsequenceGrows(FlatMap(FlatMap(front, choose), f), FlatMap(front, f), f(last));
      if choose(last) == [last] {
        FlatMapOneMore(FlatMap(front, choose), last, f);
      } else {
        assert FlatMap(s, choose) == FlatMap(front, choose);
      }
    }
  }

  /** The evidence that the extract lists once more because its items lie inside kept items. */
  function RepeatedEvidence(reader: Reader, payload: Json): seq<Evidence> {
    EvidenceFrom(EventsOf(reader, Nested(reader, payload)))
  }

  lemma ExtractEvidence(reader: Reader, payload: Json)
    requires ReadAll(reader, LegalItems(payload)).Some?
    ensures Extract(reader, payload).Some?
    ensures ReadAll(reader, LegalItems(Extract(reader, payload).value)).Some?
    ensures EvidenceFrom(ReadAll(reader, LegalItems(Extract(reader, payload).value)).value)
            == EvidenceFrom(Filter(ReadAll(reader, LegalItems(payload)).value, IsKept))
               + RepeatedEvidence(reader, payload)
  {
    var more := ExtractEvents(reader, payload);
    FlatMapConcat(Filter(ReadAll(reader, LegalItems(payload)).value, IsKept), more, EvidenceOf);
  }

  /** When nothing is repeated, the extract's evidence is the payload's with entries left out. */
  lemma ExtractEvidenceIsSubsequence(reader: Reader, payload: Json)
    requires ReadAll(reader, LegalItems(payload)).Some? && RepeatedEvidence(reader, payload) == []
    ensures Extract(reader, payload).Some?
    ensures ReadAll(reader, LegalItems(Extract(reader, payload).value)).Some?
    ensures Subsequence(EvidenceFrom(ReadAll(reader, LegalItems(Extract(reader, payload).value)).value),
                        EvidenceFrom(ReadAll(reader, LegalItems(payload)).value))
  {
    var events := ReadAll(reader, LegalItems(payload)).value;
    ExtractEvidence(reader, payload);
    assert EvidenceFrom(Filter(events, IsKept)) + [] == EvidenceFrom(Filter(events, IsKept));
    FewerGiveSubsequence(events, Only(IsKept), EvidenceOf);
  }

  lemma {:induction false} SubsequenceIsNoLonger<T>(a: seq<T>, b: seq<T>)
    requires Subsequence(a, b)
    ensures |a| <= |b|
    decreases |b|
  {
    if a != [] {
      if a[|a| - 1] == b[|b| - 1] && Subsequence(a[..|a| - 1], b[..|b| - 1]) {
        SubsequenceIsNoLonger(a[..|a| - 1], b[..|b| - 1]);
      } else {
        SubsequenceIsNoLonger(a, b[..|b| - 1]);
      }
    }
  }

  /** Every event that is evidence is kept. */
  predicate EvidenceIsKept(events: seq<LegalEvent>) {
    forall e :: e in events && IsEvidence(e) ==> IsKept(e)
  }

  lemma KeptEvidenceIsAll(events: seq<LegalEvent>)
    requires EvidenceIsKept(events)
    ensures EvidenceFrom(Filter(events, IsKept)) == EvidenceFrom(events)
  {
    forall e | e in events
      ensures FlatMap(Only(IsKept)(e), EvidenceOf) == EvidenceOf(e)
    {
      FlatMapOfOne(e, EvidenceOf);
    }
    FlatMapFused(events, Only(IsKept), EvidenceOf, EvidenceOf);
  }

  lemma LongerIsNoSubsequence<T>(a: seq<T>, more: seq<T>)
    requires Subsequence(a + more, a)
    ensures more == []
  {
    SubsequenceIsNoLonger(a + more, a);
  }

  /** When no evidence is dropped, that condition is also necessary: repeated evidence makes the list longer. */
  lemma EvidenceIsSubsequenceExactly(reader: Reader, payload: Json)
    requires ReadAll(reader, LegalItems(payload)).Some?
    requires EvidenceIsKept(ReadAll(reader, LegalItems(payload)).value)
    ensures Extract(reader, payload).Some?
    ensures ReadAll(reader, LegalItems(Extract(reader, payload).value)).Some?
    ensures Subsequence(EvidenceFrom(ReadAll(reader, LegalItems(Extract(reader, payload).value)).value),
                        EvidenceFrom(ReadAll(reader, LegalItems(payload)).value))
            <==> RepeatedEvidence(reader, payload) == []
  {
    var events := ReadAll(reader, LegalItems(payload)).value;
    ExtractEvidence(reader, payload);
    KeptEvidenceIsAll(events);
    if RepeatedEvidence(reader, payload) == [] {
      ExtractEvidenceIsSubsequence(reader, payload);
    } else if Subsequence(EvidenceFrom(events) + RepeatedEvidence(reader, payload), EvidenceFrom(events)) {
      LongerIsNoSubsequence(EvidenceFrom(events), RepeatedEvidence(reader, payload));
    }
  }

  // ----- the same for every way of reading the items

  /** Item `x` lies inside the members of item `i` that the extract keeps. */
  predicate LiesInside(x: Json, i: Json) {
    i.Object? && x in LegalItems(Object(KeepFields(i.fields)))
  }

  lemma {:induction false} NestedAreInside(reader: Reader, payload: Json, x: Json)
    ensures x in Nested(reader, payload) <==>
            exists i :: i in LegalItems(payload) && KeepItem(reader, i) != [] && LiesInside(x, i)
  {
    var items := LegalItems(payload);
    InItemsOfAll(KeepItems(reader, items), x);
    if x in Nested(reader, payload) {
      var k :| k in KeepItems(reader, items) && x in LegalItems(k);
      var i := KeptItemOrigin(reader, items, k);
      assert LiesInside(x, i);
    }
    if i :| i in items && KeepItem(reader, i) != [] && LiesInside(x, i) {
      var k := KeepItem(reader, i)[0];
      FlatMapMember(items, Keeping(reader), k);
      assert k in KeepItems(reader, items) && x in LegalItems(k);
    }
  }

  /** For this reading, the evidence of the extract is a subsequence of the payload's. */
  ghost predicate KeepsEvidenceOrder(reader: Reader, payload: Json) {
    && ReadAll(reader, LegalItems(payload)).Some?
    && Extract(reader, payload).Some?
    && ReadAll(reader, LegalItems(Extract(reader, payload).value)).Some?
    && Subsequence(EvidenceFrom(ReadAll(reader, LegalItems(Extract(reader, payload).value)).value),
                   EvidenceFrom(ReadAll(reader, LegalItems(payload)).value))
  }

  /** Every item is an object with a code. */
  predicate AllCoded(payload: Json) {
    forall i :: i in LegalItems(payload) ==> i.Object? && Get(i.fields, CODE).Some?
  }

  ghost predicate NothingInside(payload: Json) {
    forall i, x :: i in LegalItems(payload) ==> !LiesInside(x, i)
  }

  /** Reads every code as that of a designation. */
  const DESIGNATIONS := Reader(_ => DESIGNATION, _ => None, (_, _) => map[])

  lemma CodedIsDesignation(i: Json)
    requires i.Object? && Get(i.fields, CODE).Some?
    ensures KeepItem(DESIGNATIONS, i) != [] && IsKept(ReadFields(DESIGNATIONS, i.fields))
    ensures IsEvidence(ReadFields(DESIGNATIONS, i.fields))
  {
    KeysDiffer();
    StripOfCode();
  }

  lemma StripOfCode()
    ensures Strip(DESIGNATION) == DESIGNATION
  {
    assert LeadingBlanks(DESIGNATION) == 0 && TrimmedLength(DESIGNATION) == |DESIGNATION|;
  }

  lemma CodedAreObjects(payload: Json)
    requires AllCoded(payload)
    ensures AllObjects(LegalItems(payload))
  {
    var items := LegalItems(payload);
    forall k | 0 <= k < |items|
      ensures items[k].Object?
    {
      assert items[k] in items;
    }
  }

  lemma CodedEventsAreKept(payload: Json)
    requires AllCoded(payload)
    ensures forall e :: e in EventsOf(DESIGNATIONS, LegalItems(payload)) ==> IsKept(e)
  {
    forall e | e in EventsOf(DESIGNATIONS, LegalItems(payload))
      ensures IsKept(e)
    {
      FlatMapMember(LegalItems(payload), Reading(DESIGNATIONS), e);
      var item :| item in LegalItems(payload) && e in EventOf(DESIGNATIONS, item);
      CodedIsDesignation(item);
    }
  }

  lemma NestedItemIsRepeated(payload: Json, i: Json, x: Json)
    requires AllCoded(payload) && i in LegalItems(payload) && LiesInside(x, i)
    ensures !KeepsEvidenceOrder(DESIGNATIONS, payload)
  {
    CodedAreObjects(payload);
    CodedEventsAreKept(payload);
    CodedIsDesignation(i);
    NestedAreInside(DESIGNATIONS, payload, x);
    NestedItemsWereItems(DESIGNATIONS, payload, x);
    CodedIsDesignation(x);
    var event := ReadFields(DESIGNATIONS, x.fields);
    FlatMapMember(Nested(DESIGNATIONS, payload), Reading(DESIGNATIONS), event);
    FlatMapMember(EventsOf(DESIGNATIONS, Nested(DESIGNATIONS, payload)), EvidenceOf, EvidenceOf(event)[0]);
    EvidenceIsSubsequenceExactly(DESIGNATIONS, payload);
  }

  /**
   * For a payload whose items all carry a code: whatever the codes and the other members say, the extract keeps
   * the evidence in order without repeating any, if and only if no item lies inside another one's kept members.
   */
  lemma EvidenceOrderForAllReadersExactly(payload: Json)
    requires AllCoded(payload)
    ensures (forall reader: Reader :: KeepsEvidenceOrder(reader, payload)) <==> NothingInside(payload)
  {
    if NothingInside(payload) {
      CodedAreObjects(payload);
      forall reader: Reader
        ensures KeepsEvidenceOrder(reader, payload)
      {
        NothingNested(reader, payload);
        ExtractEvidenceIsSubsequence(reader, payload);
      }
    } else {
      var i, x :| i in LegalItems(payload) && LiesInside(x, i);
      NestedItemIsRepeated(payload, i, x);
    }
  }

  lemma NothingNested(reader: Reader, payload: Json)
    requires NothingInside(payload)
    ensures Nested(reader, payload) == []
  {
    if Nested(reader, payload) != [] {
      NestedAreInside(reader, payload, Nested(reader, payload)[0]);
    }
  }

  // ----- when extracting twice is extracting once

  lemma KeepItemsTwice(reader: Reader, items: seq<Json>)
    ensures KeepItems(reader, KeepItems(reader, items)) == KeepItems(reader, items)
  {
    forall k | k in KeepItems(reader, items)
      ensures Keeping(reader)(k) == [k]
    {
      var origin := KeptItemOrigin(reader, items, k);
      ReducedReadsSame(reader, origin.fields);
      KeepFieldsTwice(origin.fields);
    }
    FlatMapFixed(KeepItems(reader, items), Keeping(reader));
  }

  lemma ExtractedTwice(reader: Reader, payload: Json)
    requires Extract(reader, payload).Some?
    ensures Extract(reader, Extract(reader, payload).value) ==
            Some(Object([Field(LEGAL, List(KeepItems(reader, LegalItems(payload))
                                           + KeepItems(reader, Nested(reader, payload))))]))
  {
    var items, nested := LegalItems(payload), Nested(reader, payload);
    ExtractItems(reader, payload);
    FlatMapConcat(KeepItems(reader, items), nested, Keeping(reader));
    KeepItemsTwice(reader, items);
    var more := ExtractEvents(reader, payload);
  }

  /** No item that is kept lies inside the kept members of another item that is kept. */
  ghost predicate NoKeptInsideKept(reader: Reader, payload: Json) {
    forall i, x :: i in LegalItems(payload) && KeepItem(reader, i) != [] && LiesInside(x, i) ==>
      KeepItem(reader, x) == []
  }

  lemma NothingKeptTwice(reader: Reader, payload: Json)
    ensures KeepItems(reader, Nested(reader, payload)) == [] <==> NoKeptInsideKept(reader, payload)
  {
    var nested := Nested(reader, payload);
    if KeepItems(reader, nested) == [] {
      forall i, x | i in LegalItems(payload) && KeepItem(reader, i) != [] && LiesInside(x, i)
        ensures KeepItem(reader, x) == []
      {
        NestedAreInside(reader, payload, x);
        if KeepItem(reader, x) != [] {
          FlatMapMember(nested, Keeping(reader), KeepItem(reader, x)[0]);
        }
      }
    } else {
      var again := KeepItems(reader, nested)[0];
      FlatMapMember(nested, Keeping(reader), again);
      var x :| x in nested && again in KeepItem(reader, x);
      NestedAreInside(reader, payload, x);
    }
  }

  /**
   * Extracting is idempotent if and only if no kept item contains, inside the members that are kept, a further
   * item that is kept: the walk descends into items, so such an item is listed again.
   */
  lemma IdempotentExactlyWithoutNestedItems(reader: Reader, payload: Json)
    requires Extract(reader, payload).Some?
    ensures Extract(reader, Extract(reader, payload).value) == Extract(reader, payload) <==>
            NoKeptInsideKept(reader, payload)
  {
    var kept, again := KeepItems(reader, LegalItems(payload)), KeepItems(reader, Nested(reader, payload));
    NothingKeptTwice(reader, payload);
    ExtractedTwice(reader, payload);
    var once := Object([Field(LEGAL, List(kept))]);
    var twice := Object([Field(LEGAL, List(kept + again))]);
    if again == [] {
      assert kept + again == kept;
    } else {
      assert twice.fields[0].value.items != once.fields[0].value.items;
    }
  }

  /** An event and, in its payload lines, another event with the same code. */
  function InnerEvent(code: string): Json {
    Object([Field(CODE, Scalar(code))])
  }

  function OuterEvent(code: string): Json {
    Object([Field(CODE, Scalar(code)), Field(LINES, Object([Field(LEGAL, InnerEvent(code))]))])
  }

  lemma KeysDiffer()
    ensures CODE != LEGAL && LINES != LEGAL && CODE in EVENT_FIELDS && LINES in EVENT_FIELDS
    ensures DESIGNATION in KEEP_CODES
  {
    assert CODE[0] != LEGAL[0] && |LINES| != |LEGAL|;
    assert EVENT_FIELDS[0] == CODE && EVENT_FIELDS[3] == LINES && KEEP_CODES[0] == DESIGNATION;
  }

  lemma OneField(f: Field)
    ensures Get([f], LEGAL) == if f.key == LEGAL then Some(f.value) else None
    ensures ItemsOfFields([f]) == LegalItems(f.value)
    ensures KeepFields([f]) == if f.key in EVENT_FIELDS then [f] else []
  {
    assert [f][1..] == [] && ItemsOfFields([]) == [] && Get([], LEGAL) == None && KeepFields([]) == [];
    assert LegalItems(f.value) + [] == LegalItems(f.value);
  }

  lemma TwoFields(f: Field, g: Field)
    requires f.key != LEGAL && g.key != LEGAL && f.key in EVENT_FIELDS && g.key in EVENT_FIELDS
    ensures OwnItems([f, g]) == [] && ItemsOfFields([f, g]) == LegalItems(f.value) + LegalItems(g.value)
    ensures KeepFields([f, g]) == [f, g]
  {
    assert [f, g][1..] == [g];
    OneField(g);
  }

  lemma InnerItems(code: string)
    ensures LegalItems(InnerEvent(code)) == []
  {
    KeysDiffer();
    OneField(Field(CODE, Scalar(code)));
  }

  lemma ItemsUnderLegal(item: Json)
    requires item.Object?
    ensures LegalItems(Object([Field(LEGAL, item)])) == [item] + LegalItems(item)
  {
    OneField(Field(LEGAL, item));
  }

  lemma OuterItems(code: string)
    ensures LegalItems(OuterEvent(code)) == [InnerEvent(code)]
  {
    KeysDiffer();
    InnerItems(code);
    ItemsUnderLegal(InnerEvent(code));
    TwoFields(Field(CODE, Scalar(code)), Field(LINES, Object([Field(LEGAL, InnerEvent(code))])));
  }

  lemma EventItems(code: string)
    ensures LegalItems(InnerEvent(code)) == []
    ensures LegalItems(OuterEvent(code)) == [InnerEvent(code)]
    ensures LegalItems(Object([Field(LEGAL, OuterEvent(code))])) == [OuterEvent(code), InnerEvent(code)]
  {
    InnerItems(code);
    OuterItems(code);
    ItemsUnderLegal(OuterEvent(code));
  }

  lemma DesignationIsKept(reader: Reader, code: string, fields: seq<Field>)
    requires Strip(reader.str(Scalar(code))) == DESIGNATION
    requires Get(fields, CODE) == Some(Scalar(code)) && KeepFields(fields) == fields
    ensures KeepItem(reader, Object(fields)) == [Object(fields)] && IsEvidence(ReadFields(reader, fields))
  {
    KeysDiffer();
    assert ReadFields(reader, fields).code == DESIGNATION;
  }

  lemma EventsAreKept(reader: Reader, code: string)
    requires Strip(reader.str(Scalar(code))) == DESIGNATION
    ensures KeepItem(reader, OuterEvent(code)) == [OuterEvent(code)]
    ensures KeepItem(reader, InnerEvent(code)) == [InnerEvent(code)]
    ensures IsEvidence(ReadFields(reader, InnerEvent(code).fields))
  {
    var first, second := Field(CODE, Scalar(code)), Field(LINES, Object([Field(LEGAL, InnerEvent(code))]));
    KeysDiffer();
    OneField(first);
    TwoFields(first, second);
    DesignationIsKept(reader, code, [first]);
    DesignationIsKept(reader, code, [first, second]);
  }

  lemma ItemsOfTwo(outer: Json, inner: Json)
    ensures ItemsOfAll([outer, inner]) == LegalItems(outer) + LegalItems(inner)
  {
    assert [outer, inner][1..] == [inner] && [inner][1..] == [];
    assert ItemsOfAll([inner]) == LegalItems(inner) + [];
  }

  lemma NestedOf(reader: Reader, payload: Json, outer: Json, inner: Json)
    requires LegalItems(payload) == [outer, inner] && LegalItems(outer) == [inner] && LegalItems(inner) == []
    requires KeepItem(reader, outer) == [outer] && KeepItem(reader, inner) == [inner]
    ensures Nested(reader, payload) == [inner]
  {
    FlatMapOfOne(outer, Keeping(reader));
    FlatMapOneMore([outer], inner, Keeping(reader));
    ItemsOfTwo(outer, inner);
    assert [outer] + [inner] == [outer, inner] && [inner] + [] == [inner];
  }

  lemma ListedTwice(reader: Reader, payload: Json, inner: Json)
    requires AllObjects(LegalItems(payload)) && Nested(reader, payload) == [inner]
    requires inner.Object? && KeepItem(reader, inner) == [inner] && IsEvidence(ReadFields(reader, inner.fields))
    ensures Extract(reader, payload).Some?
    ensures Extract(reader, Extract(reader, payload).value) != Extract(reader, payload)
    ensures RepeatedEvidence(reader, payload) != []
  {
    FlatMapOfOne(inner, Keeping(reader));
    FlatMapOfOne(inner, Reading(reader));
    FlatMapOfOne(ReadFields(reader, inner.fields), EvidenceOf);
    NothingKeptTwice(reader, payload);
    IdempotentExactlyWithoutNestedItems(reader, payload);
  }

  /** There the extract lists the inner event twice: extracting again changes it, and the evidence is repeated. */
  lemma NestedItemIsListedTwice(reader: Reader, code: string)
    requires Strip(reader.str(Scalar(code))) == DESIGNATION
    ensures var payload := Object([Field(LEGAL, OuterEvent(code))]);
            && Extract(reader, payload).Some?
            && Extract(reader, Extract(reader, payload).value) != Extract(reader, payload)
            && RepeatedEvidence(reader, payload) != []
  {
    var payload, outer, inner := Object([Field(LEGAL, OuterEvent(code))]), OuterEvent(code), InnerEvent(code);
    EventItems(code);
    EventsAreKept(reader, code);
    NestedOf(reader, payload, outer, inner);
    ListedTwice(reader, payload, inner);
  }
}
