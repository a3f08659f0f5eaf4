/** OCEL 2.0 logs, the rendered plan, the harness ledger, and the report the conformance check
    appends its violations to. */
module Ocel {
  import opened Text

  datatype Value = Str(text: string) | Num(number: int)
  datatype Attr = Attr(name: string, value: Value)
  datatype Rel = Rel(objectId: string, qualifier: string)
  datatype Event = Event(id: string, ty: string, attrs: seq<Attr>, rels: seq<Rel>)
  datatype Object = Object(id: Option<string>, ty: Option<string>)

  /** An entry of `eventTypes` or `objectTypes`, which may not be a record at all. */
  datatype TypeEntry = Other | TypeNamed(name: Option<string>)

  /** A parsed document; `None` is a top-level key that is missing. */
  datatype Doc = Doc(eventTypes: Option<seq<TypeEntry>>, objectTypes: Option<seq<TypeEntry>>,
                     events: Option<seq<Event>>, objects: Option<seq<Object>>)
  datatype Log = Log(name: string, doc: Doc)

  datatype PlanStep = PlanStep(phase: string, step: string, task: string, subject: string)
  datatype Record = Record(step: Option<string>, exit: Option<Value>)
  datatype Run = Run1 | Run2

  const COMPOSED := "task_composed"
  const GUARDED := "task_admission_refused"
  const REFUSED := "capability_refused"
  const APPLIED := "manufacture_run_applied"
  const ABORTED := "manufacture_run_aborted"
  const SUFFIX := ".ocel.json"

  function EventsIn(doc: Doc): seq<Event> { Or(doc.events, []) }

  /** `{a["name"]: a["value"] for a in attributes}.get(name)`: the last one counts. */
  function AttrOf(attrs: seq<Attr>, name: string): Option<Value> {
    if attrs == [] then None
    else if attrs[|attrs| - 1].name == name then Some(attrs[|attrs| - 1].value)
    else AttrOf(attrs[..|attrs| - 1], name)
  }

  /** The object of the first relationship with this qualifier. */
  function Qualified(rels: seq<Rel>, qualifier: string): Option<string> {
    if rels == [] then None
    else if rels[0].qualifier == qualifier then Some(rels[0].objectId)
    else Qualified(rels[1..], qualifier)
  }

  function Subject(e: Event): Option<string> { Qualified(e.rels, "subject") }
  function Task(e: Event): Option<string> { Qualified(e.rels, "generator") }
  function Phase(e: Event): Option<Value> { AttrOf(e.attrs, "phase") }
  function ExitOf(e: Event): Option<Value> { AttrOf(e.attrs, "exit") }

  /** The last attribute of this name has this value. */
  ghost predicate LastAttr(attrs: seq<Attr>, name: string, v: Value) {
    exists i :: 0 <= i < |attrs| && attrs[i] == Attr(name, v) && forall j :: i < j < |attrs| ==> attrs[j].name != name
  }

  lemma {:induction false} AttrMeaning(attrs: seq<Attr>, name: string, v: Value)
    ensures AttrOf(attrs, name) == Some(v) <==> LastAttr(attrs, name, v)
  {
    if attrs != [] {
      var n := |attrs| - 1;
      AttrMeaning(attrs[..n], name, v);
      if attrs[n].name == name {
        if attrs[n].value == v { assert attrs[n] == Attr(name, v); }
      } else {
        AttrBefore(attrs, name, v);
      }
    }
  }

  lemma AttrBefore(attrs: seq<Attr>, name: string, v: Value)
    requires attrs != [] && attrs[|attrs| - 1].name != name
    ensures LastAttr(attrs[..|attrs| - 1], name, v) <==> LastAttr(attrs, name, v)
  {
    var n := |attrs| - 1;
    if LastAttr(attrs[..n], name, v) {
      var i :| 0 <= i < n && attrs[..n][i] == Attr(name, v) && forall j :: i < j < n ==> attrs[..n][j].name != name;
      assert attrs[i] == Attr(name, v);
      assert forall j :: i < j < n ==> attrs[j].name == attrs[..n][j].name;
    }
    if LastAttr(attrs, name, v) {
      var i :| 0 <= i < |attrs| && attrs[i] == Attr(name, v) && forall j :: i < j < |attrs| ==> attrs[j].name != name;
      assert attrs[..n][i] == Attr(name, v);
    }
  }

  /** The first relationship with this qualifier goes to this object. */
  ghost predicate FirstRel(rels: seq<Rel>, qualifier: string, objectId: string) {
    exists i :: 0 <= i < |rels| && rels[i] == Rel(objectId, qualifier)
                && forall j :: 0 <= j < i ==> rels[j].qualifier != qualifier
  }

  lemma {:induction false} QualifiedMeaning(rels: seq<Rel>, qualifier: string, objectId: string)
    ensures Qualified(rels, qualifier) == Some(objectId) <==> FirstRel(rels, qualifier, objectId)
  {
    if rels != [] {
      QualifiedMeaning(rels[1..], qualifier, objectId);
      if rels[0].qualifier == qualifier {
        if rels[0].objectId == objectId { assert rels[0] == Rel(objectId, qualifier); }
      } else {
        RelBehind(rels, qualifier, objectId);
      }
    }
  }

  lemma RelBehind(rels: seq<Rel>, qualifier: string, objectId: string)
    requires rels != [] && rels[0].qualifier != qualifier
    ensures FirstRel(rels[1..], qualifier, objectId) <==> FirstRel(rels, qualifier, objectId)
  {
    var rest := rels[1..];
    if FirstRel(rest, qualifier, objectId) {
      var i :| 0 <= i < |rest| && rest[i] == Rel(objectId, qualifier)
               && forall j :: 0 <= j < i ==> rest[j].qualifier != qualifier;
      assert rels[i + 1] == Rel(objectId, qualifier);
      assert forall j :: 0 < j < i + 1 ==> rels[j] == rest[j - 1];
    }
    if FirstRel(rels, qualifier, objectId) {
      var i :| 0 <= i < |rels| && rels[i] == Rel(objectId, qualifier)
               && forall j :: 0 <= j < i ==> rels[j].qualifier != qualifier;
      assert rest[i - 1] == Rel(objectId, qualifier);
      assert forall j :: 0 <= j < i - 1 ==> rest[j] == rels[j + 1];
    }
  }

  /** What the readers of an event return: the objects of its first `generator` and `subject`
      relationships, the values of its last `phase` and `exit` attributes. */
  lemma EventReaders(e: Event, id: string, v: Value)
    ensures Task(e) == Some(id) <==> FirstRel(e.rels, "generator", id)
    ensures Subject(e) == Some(id) <==> FirstRel(e.rels, "subject", id)
    ensures Phase(e) == Some(v) <==> LastAttr(e.attrs, "phase", v)
    ensures ExitOf(e) == Some(v) <==> LastAttr(e.attrs, "exit", v)
  {
    QualifiedMeaning(e.rels, "generator", id);
    QualifiedMeaning(e.rels, "subject", id);
    AttrMeaning(e.attrs, "phase", v);
    AttrMeaning(e.attrs, "exit", v);
  }

  lemma EventTypes(e: Event)
    ensures IsDecision(e) <==> e.ty in {"task_composed", "task_admission_refused"}
    ensures IsSeal(e) <==> e.ty in {"manufacture_run_applied", "manufacture_run_aborted"}
  {
  }

  predicate IsDecision(e: Event) { e.ty == COMPOSED || e.ty == GUARDED }
  predicate IsSeal(e: Event) { e.ty == APPLIED || e.ty == ABORTED }

  /** What a plan step and a decision event are joined on. */
  datatype Key = Key(phase: Option<Value>, step: Option<Value>, subject: Option<string>)

  function PlanKey(s: PlanStep): Key { Key(Some(Str(s.phase)), Some(Str(s.step)), Some(s.subject)) }
  function KeyOf(e: Event): Key { Key(Phase(e), AttrOf(e.attrs, "step"), Subject(e)) }

  /** The event names the step's phase, step and subject. */
  ghost predicate Decides(e: Event, s: PlanStep) {
    LastAttr(e.attrs, "phase", Str(s.phase)) && LastAttr(e.attrs, "step", Str(s.step)) &&
    FirstRel(e.rels, "subject", s.subject)
  }

  /** Events and steps are joined on phase, step and subject, and on nothing else. */
  lemma KeysJoin(e: Event, s: PlanStep)
    ensures KeyOf(e) == PlanKey(s) <==> Decides(e, s)
  {
    AttrMeaning(e.attrs, "phase", Str(s.phase));
    AttrMeaning(e.attrs, "step", Str(s.step));
    QualifiedMeaning(e.rels, "subject", s.subject);
  }

  lemma PlanKeysJoin(s: PlanStep, t: PlanStep)
    ensures PlanKey(s) == PlanKey(t) <==> s.phase == t.phase && s.step == t.step && s.subject == t.subject
  {
  }

  // ---------------------------------------------------------------- violations

  datatype StructureFault =
    | DuplicateId(id: string)
    | UndeclaredEventType(event: Event)
    | UndeclaredObject(event: Event, objectId: string)
    | RepeatedRelationship(event: Event, rel: Rel, count: nat)
    | UndeclaredObjectType(obj: Object)

  datatype SealFault =
    | Mistyped(event: Event)
    | Uncorroborated(event: Event)
    | ExitsDisagree(event: Event, ledgerExit: Option<Value>)

  datatype LogFault =
    | MissingKey(key: string)
    | Structure(s: StructureFault)
    | Unsealed
    | Aborted(event: Event)
    | Seal(x: SealFault)

  datatype CoverageFault =
    | SilentPhase(phase: string, steps: nat)
    | StepVanished(key: Key)
    | DoubleCounted(key: Key, ids: seq<string>, planned: nat)
    | Unplanned(key: Key, ids: seq<string>)

  datatype RunFault =
    | MissingDirectory
    | Coverage(c: CoverageFault)
    | ComposedUndeclared(event: Event)
    | ComposedForbidden(event: Event)
    | NotRefused(task: string)
    | BaseAfterCore
    | NotOnDisk(subject: string)

  datatype SetupFault =
    | NotADirectory
    | TaskFiles(count: nat)
    | EmptyPlan
    | NoLedger
    | DuplicateLabel(step: string)
    | NoFlip

  datatype Violation =
    | OfLog(run: Run, log: Log, logFault: LogFault)
    | OfRun(run: Run, runFault: RunFault)
    | OfSetup(setupFault: SetupFault)

  datatype Summary = Summary(events: nat, composedTasks: set<Option<string>>, composedCount: nat, decisions: nat,
                             guarded: set<Option<string>>, refused: set<Option<string>>)

  /** The `result` dictionary. */
  class Report {
    var violations: seq<Violation>
    var runs: map<Run, Summary>

    constructor ()
      ensures violations == [] && runs == map[]
    {
      violations := [];
      runs := map[];
    }

    method Add(v: Violation)
      modifies this`violations
      ensures violations == old(violations) + [v]
    {
      violations := violations + [v];
    }
  }
}
