/** Structural integrity of one OCEL 2.0 document. */
module Structure {
  import opened Text
  import opened Ocel

  /** The type names an `eventTypes` or `objectTypes` list declares. */
  function Declared(entries: Option<seq<TypeEntry>>): set<Option<string>> {
    set t | t in Or(entries, []) && t.TypeNamed? :: t.name
  }

  function ObjectIds(doc: Doc): set<Option<string>> {
    set o | o in Or(doc.objects, []) :: o.id
  }

  function Ids(events: seq<Event>): seq<string> {
    seq(|events|, i requires 0 <= i < |events| => events[i].id)
  }

  function IdSet(events: seq<Event>): set<string> {
    set e | e in events :: e.id
  }

  /** What one event gets reported for. */
  ghost predicate EventFinding(doc: Doc, f: StructureFault) {
    match f
    case UndeclaredEventType(e) => Some(e.ty) !in Declared(doc.eventTypes)
    case UndeclaredObject(e, oid) => (exists r :: r in e.rels && r.objectId == oid) && Some(oid) !in ObjectIds(doc)
    case RepeatedRelationship(e, rel, n) => n == multiset(e.rels)[rel] && n > 1
    case _ => false
  }

  ghost predicate StructureFinding(doc: Doc, f: StructureFault) {
    match f
    case DuplicateId(id) => multiset(Ids(EventsIn(doc)))[id] > 1
    case UndeclaredObjectType(o) => o in Or(doc.objects, []) && o.ty !in Declared(doc.objectTypes)
    case _ => f.event in EventsIn(doc) && EventFinding(doc, f)
  }

  ghost predicate IsStructure(run: Run, log: Log, v: Violation) {
    v.OfLog? && v.run == run && v.log == log && v.logFault.Structure?
  }

  function DuplicateReports(vs: seq<Violation>): nat {
    if vs == [] then 0
    else
      var v := vs[|vs| - 1];
      DuplicateReports(vs[..|vs| - 1])
      + (if v.OfLog? && v.logFault.Structure? && v.logFault.s.DuplicateId? then 1 else 0)
  }

  lemma {:induction false} DuplicateReportsConcat(vs: seq<Violation>, ws: seq<Violation>)
    ensures DuplicateReports(vs + ws) == DuplicateReports(vs) + DuplicateReports(ws)
  {
    if ws == [] {
      assert vs + ws == vs;
    } else {
      var n := |ws| - 1;
      assert (vs + ws)[..|vs + ws| - 1] == vs + ws[..n];
      DuplicateReportsConcat(vs, ws[..n]);
    }
  }

  lemma {:induction false} NoDuplicateReports(vs: seq<Violation>)
    requires forall v :: v in vs ==> v.OfLog? && v.logFault.Structure? && !v.logFault.s.DuplicateId?
    ensures DuplicateReports(vs) == 0
  {
    if vs != [] {
      assert vs[|vs| - 1] in vs;
      NoDuplicateReports(vs[..|vs| - 1]);
    }
  }

  /** Exactly the structure findings; the reports of duplicate ids make up for the difference
      between events and distinct ids. */
  ghost predicate StructureReport(run: Run, log: Log, added: seq<Violation>) {
    && (forall v :: v in added <==> IsStructure(run, log, v) && StructureFinding(log.doc, v.logFault.s))
    && DuplicateReports(added) + |IdSet(EventsIn(log.doc))| == |EventsIn(log.doc)|
  }

  // ---------------------------------------------------------------- the check

  method CountTuples(rels: seq<Rel>) returns (tuples: map<Rel, nat>)
    ensures forall r :: (if r in tuples then tuples[r] else 0) == multiset(rels)[r]
  {
    tuples := map[];
    for i := 0 to |rels|
      invariant forall r :: (if r in tuples then tuples[r] else 0) == multiset(rels[..i])[r]
    {
      assert rels[..i + 1] == rels[..i] + [rels[i]];
      tuples := tuples[rels[i] := (if rels[i] in tuples then tuples[rels[i]] else 0) + 1];
    }
    assert rels[..|rels|] == rels;
  }

  method CheckEvent(result: Report, run: Run, log: Log, e: Event)
    returns (ghost added: seq<Violation>)
    modifies result`violations
    ensures result.violations == old(result.violations) + added
    ensures forall v :: v in added <==>
      IsStructure(run, log, v) && EventFinding(log.doc, v.logFault.s) && v.logFault.s.event == e
  {
    added := [];
    if Some(e.ty) !in Declared(log.doc.eventTypes) {
      result.Add(OfLog(run, log, Structure(UndeclaredEventType(e))));
      added := added + [OfLog(run, log, Structure(UndeclaredEventType(e)))];
    }
    ghost var before := added;
    for i := 0 to |e.rels|
      invariant result.violations == old(result.violations) + added
      invariant forall v :: v in added <==>
        || v in before
        || (IsStructure(run, log, v) && v.logFault.s.UndeclaredObject? && v.logFault.s.event == e &&
            Some(v.logFault.s.objectId) !in ObjectIds(log.doc) &&
            exists r :: r in e.rels[..i] && r.objectId == v.logFault.s.objectId)
    {
      var oid := e.rels[i].objectId;
      assert e.rels[i] in e.rels[..i + 1];
      assert forall r :: r in e.rels[..i + 1] <==> r in e.rels[..i] || r == e.rels[i];
      if Some(oid) !in ObjectIds(log.doc) {
        result.Add(OfLog(run, log, Structure(UndeclaredObject(e, oid))));
        added := added + [OfLog(run, log, Structure(UndeclaredObject(e, oid)))];
      }
    }
    assert e.rels[..|e.rels|] == e.rels;
    var repeats := CheckTuples(result, run, log, e);
    added := added + repeats;
  }

  method CheckTuples(result: Report, run: Run, log: Log, e: Event) returns (ghost added: seq<Violation>)
    modifies result`violations
    ensures result.violations == old(result.violations) + added
    ensures forall v :: v in added <==>
      IsStructure(run, log, v) && v.logFault.s.RepeatedRelationship? && v.logFault.s.event == e &&
      v.logFault.s.count == multiset(e.rels)[v.logFault.s.rel] > 1
  {
    added := [];
    var tuples := CountTuples(e.rels);
    var todo := tuples.Keys;
    while todo != {}
      invariant todo <= tuples.Keys
      invariant result.violations == old(result.violations) + added
      invariant forall v :: v in added <==>
        IsStructure(run, log, v) && v.logFault.s.RepeatedRelationship? && v.logFault.s.event == e &&
        v.logFault.s.rel in tuples.Keys - todo && v.logFault.s.count == tuples[v.logFault.s.rel] > 1
    {
      var rel :| rel in todo;
      if tuples[rel] > 1 {
        result.Add(OfLog(run, log, Structure(RepeatedRelationship(e, rel, tuples[rel]))));
        added := added + [OfLog(run, log, Structure(RepeatedRelationship(e, rel, tuples[rel])))];
      }
      todo := todo - {rel};
    }
  }

  method CheckObjects(result: Report, run: Run, log: Log) returns (ghost added: seq<Violation>)
    modifies result`violations
    ensures result.violations == old(result.violations) + added
    ensures forall v :: v in added <==>
      IsStructure(run, log, v) && v.logFault.s.UndeclaredObjectType? && StructureFinding(log.doc, v.logFault.s)
  {
    added := [];
    var objects, declared := Or(log.doc.objects, []), Declared(log.doc.objectTypes);
    for i := 0 to |objects|
      invariant result.violations == old(result.violations) + added
      invariant forall v :: v in added <==>
        IsStructure(run, log, v) && v.logFault.s.UndeclaredObjectType? && v.logFault.s.obj in objects[..i] &&
        v.logFault.s.obj.ty !in declared
    {
      if objects[i].ty !in declared {
        result.Add(OfLog(run, log, Structure(UndeclaredObjectType(objects[i]))));
        added := added + [OfLog(run, log, Structure(UndeclaredObjectType(objects[i])))];
      }
    }
  }

  lemma IdSetPush(events: seq<Event>, e: Event)
    ensures IdSet(events + [e]) == IdSet(events) + {e.id}
  {
  }

  lemma {:induction false} InIdSet(events: seq<Event>, id: string)
    ensures multiset(Ids(events))[id] > 0 <==> id in IdSet(events)
  {
    if events != [] {
      var n := |events| - 1;
      InIdSet(events[..n], id);
      assert events == events[..n] + [events[n]];
      IdSetPush(events[..n], events[n]);
      assert Ids(events) == Ids(events[..n]) + [events[n].id];
    }
  }

  method CheckEvents(result: Report, run: Run, log: Log) returns (ghost added: seq<Violation>)
    modifies result`violations
    ensures result.violations == old(result.violations) + added
    ensures ReportOn(run, log, EventsIn(log.doc), added)
  {
    var events := EventsIn(log.doc);
    var seen: set<string> := {};
    added := [];
    ReportNone(run, log);
    assert events[..0] == [];
    for i := 0 to |events|
      invariant result.violations == old(result.violations) + added
      invariant seen == IdSet(events[..i])
      invariant ReportOn(run, log, events[..i], added)
    {
      TakePush(events, i);
      var news := CheckNext(result, run, log, events[i], seen);
      ReportPush(run, log, events[..i], events[i], added, news);
      IdSetPush(events[..i], events[i]);
      ConcatAssociative(old(result.violations), added, news);
      added, seen := added + news, seen + {events[i].id};
    }
    assert events[..|events|] == events;
  }

  /** Exactly the findings about these events. */
  ghost predicate ReportOn(run: Run, log: Log, events: seq<Event>, added: seq<Violation>) {
    && (forall v :: v in added <==> IsStructure(run, log, v) && FoundIn(log.doc, events, v.logFault.s))
    && DuplicateReports(added) + |IdSet(events)| == |events|
  }

  /** Exactly the findings that this event brings. */
  ghost predicate ReportNext(run: Run, log: Log, e: Event, seen: set<string>, news: seq<Violation>) {
    && (forall v :: v in news <==> IsStructure(run, log, v) && FoundNext(log.doc, e, seen, v.logFault.s))
    && DuplicateReports(news) == if e.id in seen then 1 else 0
  }

  lemma ReportNone(run: Run, log: Log)
    ensures ReportOn(run, log, [], [])
  {
  }

  lemma ReportPush(run: Run, log: Log, events: seq<Event>, e: Event, added: seq<Violation>, news: seq<Violation>)
    requires ReportOn(run, log, events, added)
    requires ReportNext(run, log, e, IdSet(events), news)
    ensures ReportOn(run, log, events + [e], added + news)
  {
    DuplicateReportsConcat(added, news);
    IdSetPush(events, e);
    if e.id in IdSet(events) { assert IdSet(events) + {e.id} == IdSet(events); }
    forall v ensures v in added + news <==> IsStructure(run, log, v) && FoundIn(log.doc, events + [e], v.logFault.s) {
      if IsStructure(run, log, v) { FoundPush(log.doc, events, e, v.logFault.s); }
    }
  }

  method CheckNext(result: Report, run: Run, log: Log, e: Event, seen: set<string>)
    returns (ghost added: seq<Violation>)
    modifies result`violations
    ensures result.violations == old(result.violations) + added
    ensures ReportNext(run, log, e, seen, added)
  {
    added := [];
    if e.id in seen {
      result.Add(OfLog(run, log, Structure(DuplicateId(e.id))));
      added := [OfLog(run, log, Structure(DuplicateId(e.id)))];
    }
    assert DuplicateReports(added) == |added| by { assert added[..0] == []; }
    var faults := CheckEvent(result, run, log, e);
    NoDuplicateReports(faults);
    DuplicateReportsConcat(added, faults);
    added := added + faults;
  }

  /** A finding about these events of a document. */
  ghost predicate FoundIn(doc: Doc, events: seq<Event>, f: StructureFault) {
    match f
    case DuplicateId(id) => multiset(Ids(events))[id] > 1
    case UndeclaredObjectType(o) => false
    case _ => f.event in events && EventFinding(doc, f)
  }

  /** A finding that one more event brings, after events with these ids. */
  ghost predicate FoundNext(doc: Doc, e: Event, seen: set<string>, f: StructureFault) {
    match f
    case DuplicateId(id) => id == e.id && id in seen
    case UndeclaredObjectType(o) => false
    case _ => f.event == e && EventFinding(doc, f)
  }

  lemma FoundPush(doc: Doc, events: seq<Event>, e: Event, f: StructureFault)
    ensures FoundIn(doc, events + [e], f) <==> FoundIn(doc, events, f) || FoundNext(doc, e, IdSet(events), f)
  {
    if f.DuplicateId? {
      InIdSet(events, f.id);
      assert Ids(events + [e]) == Ids(events) + [e.id];
    }
  }

  /** `check_structure`. */
  method CheckStructure(result: Report, run: Run, log: Log) returns (ghost added: seq<Violation>)
    modifies result`violations
    ensures result.violations == old(result.violations) + added
    ensures StructureReport(run, log, added)
  {
    var first := CheckEvents(result, run, log);
    var second := CheckObjects(result, run, log);
    NoDuplicateReports(second);
    DuplicateReportsConcat(first, second);
    added := first + second;
  }

  // ---------------------------------------------------------------- what silence means

  /** The document closes: ids identify events, everything referred to is declared, no edge is
      repeated inside an event. */
  ghost predicate Closed(doc: Doc) {
    && (forall i, j :: 0 <= i < j < |EventsIn(doc)| ==> EventsIn(doc)[i].id != EventsIn(doc)[j].id)
    && (forall e :: e in EventsIn(doc) ==> TypeNamed(Some(e.ty)) in Or(doc.eventTypes, []))
    && (forall e, r :: e in EventsIn(doc) && r in e.rels ==> IsObject(doc, r.objectId))
    && (forall e :: e in EventsIn(doc) ==> NoRepeats(e.rels))
    && (forall o :: o in Or(doc.objects, []) ==> TypeNamed(o.ty) in Or(doc.objectTypes, []))
  }

  ghost predicate IsObject(doc: Doc, id: string) {
    exists o :: o in Or(doc.objects, []) && o.id == Some(id)
  }

  lemma DeclaredMeaning(entries: Option<seq<TypeEntry>>, name: Option<string>)
    ensures name in Declared(entries) <==> TypeNamed(name) in Or(entries, [])
  {
    if TypeNamed(name) in Or(entries, []) { assert TypeNamed(name).name in Declared(entries); }
  }

  /** `Closed` in the terms the check works with. */
  lemma ClosedByIds(doc: Doc)
    ensures Closed(doc) <==>
      && NoRepeats(Ids(EventsIn(doc)))
      && (forall e :: e in EventsIn(doc) ==> Some(e.ty) in Declared(doc.eventTypes))
      && (forall e, r :: e in EventsIn(doc) && r in e.rels ==> Some(r.objectId) in ObjectIds(doc))
      && (forall e :: e in EventsIn(doc) ==> NoRepeats(e.rels))
      && (forall o :: o in Or(doc.objects, []) ==> o.ty in Declared(doc.objectTypes))
  {
    forall name ensures name in Declared(doc.eventTypes) <==> TypeNamed(name) in Or(doc.eventTypes, []) {
      DeclaredMeaning(doc.eventTypes, name);
    }
    forall name ensures name in Declared(doc.objectTypes) <==> TypeNamed(name) in Or(doc.objectTypes, []) {
      DeclaredMeaning(doc.objectTypes, name);
    }
    forall id ensures Some(id) in ObjectIds(doc) <==> IsObject(doc, id) {}
    assert forall i :: 0 <= i < |EventsIn(doc)| ==> Ids(EventsIn(doc))[i] == EventsIn(doc)[i].id;
  }

  lemma NoRepeatsIffOnce<T(!new)>(xs: seq<T>)
    ensures NoRepeats(xs) <==> forall x :: multiset(xs)[x] <= 1
  {
    if NoRepeats(xs) {
      forall x ensures multiset(xs)[x] <= 1 { NoRepeatsMultiplicity(xs, x); }
    } else {
      var i, j :| 0 <= i < j < |xs| && xs[i] == xs[j];
      assert xs == xs[..j] + [xs[j]] + xs[j + 1..];
      assert xs[i] in xs[..j];
      assert xs[j] in multiset(xs[..j]);
      assert multiset(xs)[xs[j]] >= 2;
    }
  }

  lemma SilenceIsClosure(doc: Doc)
    ensures (forall f :: !StructureFinding(doc, f)) <==> Closed(doc)
  {
    var ids := Ids(EventsIn(doc));
    NoRepeatsIffOnce(ids);
    ClosedByIds(doc);
    if forall f :: !StructureFinding(doc, f) {
      forall id ensures multiset(ids)[id] <= 1 { assert !StructureFinding(doc, DuplicateId(id)); }
      forall e | e in EventsIn(doc) ensures Some(e.ty) in Declared(doc.eventTypes) {
        assert !StructureFinding(doc, UndeclaredEventType(e));
      }
      forall e, r | e in EventsIn(doc) && r in e.rels ensures Some(r.objectId) in ObjectIds(doc) {
        assert !StructureFinding(doc, UndeclaredObject(e, r.objectId));
      }
      forall e | e in EventsIn(doc) ensures NoRepeats(e.rels) {
        NoRepeatsIffOnce(e.rels);
        forall r ensures multiset(e.rels)[r] <= 1 {
          assert !StructureFinding(doc, RepeatedRelationship(e, r, multiset(e.rels)[r]));
        }
      }
      forall o | o in Or(doc.objects, []) ensures o.ty in Declared(doc.objectTypes) {
        assert !StructureFinding(doc, UndeclaredObjectType(o));
      }
    }
    if Closed(doc) {
      forall f ensures !StructureFinding(doc, f) {
        if f.RepeatedRelationship? { NoRepeatsIffOnce(f.event.rels); }
      }
    }
  }
}
