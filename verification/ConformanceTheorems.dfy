/** What `conformant` says about the two runs. */
module ConformanceTheorems {
  import opened Text
  import opened Ocel
  import opened Structure
  import opened Seals
  import opened Coverage
  import opened CoverageTheorems
  import opened Conformance

  // ---------------------------------------------------------------- decisions of a stream

  lemma {:induction false} InDecisions(events: seq<Event>, e: Event)
    ensures e in Decisions(events) <==> e in events && IsDecision(e)
  {
    if events != [] {
      var n := |events| - 1;
      InDecisions(events[..n], e);
      assert events == events[..n] + [events[n]];
    }
  }

  lemma {:induction false} DecisionsCount(events: seq<Event>)
    ensures |Decisions(events)| == |OfType(events, COMPOSED)| + |OfType(events, GUARDED)|
  {
    if events != [] { DecisionsCount(events[..|events| - 1]); }
  }

  lemma DecisionWithKey(events: seq<Event>, k: Key)
    ensures k in DecisionKeys(Decisions(events)) <==> exists e :: e in events && IsDecision(e) && KeyOf(e) == k
  {
    var ds := Decisions(events);
    if k in DecisionKeys(ds) {
      var i :| 0 <= i < |ds| && DecisionKeys(ds)[i] == k;
      assert ds[i] in ds;
      InDecisions(events, ds[i]);
    }
    if e :| e in events && IsDecision(e) && KeyOf(e) == k {
      InDecisions(events, e);
      var i :| 0 <= i < |ds| && ds[i] == e;
      assert DecisionKeys(ds)[i] == k;
    }
  }

  // ---------------------------------------------------------------- what conformance means

  /** Complete, closed, sealed as applied, and corroborated if the ledger labels anything. */
  ghost predicate LawfulLog(inp: Inputs, run: Run, log: Log)
    requires EndsWith(log.name, SUFFIX)
  {
    SoundLog(log.doc) && (Ledger(inp) != map[] ==> Corroborated(run, log, Ledger(inp)))
  }

  /** Every step decided as planned, only admitted tasks composed, every other capability refused,
      no base phase after the core phase, every composed module on disk. */
  ghost predicate LawfulStream(inp: Inputs, events: seq<Event>) {
    && Covered(Plan(inp), Decisions(events))
    && (forall e :: e in events && e.ty == "task_composed" ==> ComposesAdmitted(inp.capabilities, e))
    && (forall t :: t in inp.capabilities && !inp.capabilities[t] ==> IsRefused(events, t))
    && (forall i, j :: 0 <= i < j < |events| ==> !(InPhase(events[i], "core") && InPhase(events[j], "base")))
    && (forall e, s :: e in events && ComposesModule(e, s) ==> FileOf(s) in inp.files)
  }

  ghost predicate ComposesAdmitted(capabilities: map<string, bool>, e: Event) {
    exists t :: FirstRel(e.rels, "generator", t) && (t, true) in capabilities.Items
  }

  ghost predicate IsRefused(events: seq<Event>, task: string) {
    exists e :: e in events && e.ty == "capability_refused" && FirstRel(e.rels, "generator", task)
  }

  ghost predicate InPhase(e: Event, phase: string) { LastAttr(e.attrs, "phase", Str(phase)) }

  ghost predicate ComposesModule(e: Event, subject: string) {
    && e.ty == "task_composed" && FirstRel(e.rels, "subject", subject) && subject != "" && subject[0] in CAPITALS
  }

  lemma TaskMeaning(capabilities: map<string, bool>, e: Event)
    ensures ComposesAdmitted(capabilities, e) <==>
            Task(e).Some? && Task(e).value in capabilities && capabilities[Task(e).value]
  {
    if Task(e).Some? { QualifiedMeaning(e.rels, "generator", Task(e).value); }
    if t :| FirstRel(e.rels, "generator", t) && (t, true) in capabilities.Items {
      QualifiedMeaning(e.rels, "generator", t);
    }
  }

  lemma RefusalMeaning(events: seq<Event>, task: string)
    ensures IsRefused(events, task) <==> RefusedIn(events, task)
  {
    forall e ensures Task(e) == Some(task) <==> FirstRel(e.rels, "generator", task) {
      QualifiedMeaning(e.rels, "generator", task);
    }
  }

  lemma PhaseMeaning(events: seq<Event>)
    ensures BaseFollowsCore(events) <==>
            exists i, j :: 0 <= i < j < |events| && InPhase(events[i], "core") && InPhase(events[j], "base")
  {
    forall e: Event, p ensures Phase(e) == Some(Str(p)) <==> InPhase(e, p) { AttrMeaning(e.attrs, "phase", Str(p)); }
    if i, j :| 0 <= i < j < |events| && Phase(events[i]) == Some(Str("core")) && Phase(events[j]) == Some(Str("base")) {
      assert InPhase(events[i], "core") && InPhase(events[j], "base");
    }
  }

  lemma SubjectMeaning(e: Event, subject: string)
    ensures ComposesModule(e, subject) <==> e.ty == COMPOSED && Subject(e) == Some(subject) && IsModule(subject)
  {
    QualifiedMeaning(e.rels, "subject", subject);
    if subject != "" { CharacterClasses(subject[0]); }
  }

  ghost predicate LawfulRun(inp: Inputs, run: Run) {
    && run in inp.logs
    && (forall log :: log in inp.logs[run] && EndsWith(log.name, SUFFIX) ==> LawfulLog(inp, run, log))
    && LawfulStream(inp, Stream(inp.logs[run]))
  }

  ghost predicate LawfulSetup(inp: Inputs) {
    && inp.fixtureIsDir && |inp.taskFiles| == 1 && Plan(inp) != []
    && inp.ledger.Some? && NoRepeats(Labels(inp.ledger.value))
  }

  /** Some subject is refused admission in run 2 and not in run 1. */
  ghost predicate Flips(inp: Inputs)
    requires Run1 in inp.logs && Run2 in inp.logs
  {
    exists x :: x in GuardedSubjects(Stream(inp.logs[Run2])) && x !in GuardedSubjects(Stream(inp.logs[Run1]))
  }

  ghost predicate Lawful(inp: Inputs) {
    LawfulSetup(inp) && LawfulRun(inp, Run1) && LawfulRun(inp, Run2) && Flips(inp)
  }

  lemma SilentSetup(inp: Inputs)
    requires forall f: SetupFault :: !f.NoFlip? ==> !SetupFinding(inp, f)
    ensures LawfulSetup(inp)
  {
    assert !SetupFinding(inp, NotADirectory);
    assert !SetupFinding(inp, TaskFiles(|inp.taskFiles|));
    assert !SetupFinding(inp, EmptyPlan);
    assert !SetupFinding(inp, NoLedger);
    forall l ensures multiset(Labels(inp.ledger.value))[l] <= 1 { assert !SetupFinding(inp, DuplicateLabel(l)); }
    NoRepeatsIffOnce(Labels(inp.ledger.value));
  }

  lemma LawfulSetupIsSilent(inp: Inputs, f: SetupFault)
    requires LawfulSetup(inp) && !f.NoFlip?
    ensures !SetupFinding(inp, f)
  {
    NoRepeatsIffOnce(Labels(inp.ledger.value));
  }

  lemma SilentComposed(inp: Inputs, events: seq<Event>, e: Event)
    requires forall f :: !RunFinding(inp, events, f)
    requires e in events && e.ty == "task_composed"
    ensures ComposesAdmitted(inp.capabilities, e)
  {
    assert !RunFinding(inp, events, ComposedUndeclared(e));
    assert !RunFinding(inp, events, ComposedForbidden(e));
    TaskMeaning(inp.capabilities, e);
  }

  lemma SilentSubject(inp: Inputs, events: seq<Event>, e: Event, s: string)
    requires inp.fixtureIsDir && forall f :: !RunFinding(inp, events, f)
    requires e in events && ComposesModule(e, s)
    ensures FileOf(s) in inp.files
  {
    SubjectMeaning(e, s);
    assert ComposedIn(events, s);
    assert !RunFinding(inp, events, NotOnDisk(s));
  }

  lemma SilentStream(inp: Inputs, events: seq<Event>)
    requires Plan(inp) != [] && inp.fixtureIsDir
    requires forall f :: !RunFinding(inp, events, f)
    ensures LawfulStream(inp, events)
  {
    forall c ensures !CoverageFinding(Plan(inp), Decisions(events), c) { assert !RunFinding(inp, events, Coverage(c)); }
    SilenceIsCoverage(Plan(inp), Decisions(events));
    forall e | e in events && e.ty == "task_composed" ensures ComposesAdmitted(inp.capabilities, e) {
      SilentComposed(inp, events, e);
    }
    forall t | t in inp.capabilities && !inp.capabilities[t] ensures IsRefused(events, t) {
      assert !RunFinding(inp, events, NotRefused(t));
      RefusalMeaning(events, t);
    }
    assert !RunFinding(inp, events, BaseAfterCore);
    PhaseMeaning(events);
    forall e, s | e in events && ComposesModule(e, s) ensures FileOf(s) in inp.files {
      SilentSubject(inp, events, e, s);
    }
  }

  lemma LawfulStreamIsSilent(inp: Inputs, events: seq<Event>, f: RunFault)
    requires LawfulStream(inp, events)
    ensures !RunFinding(inp, events, f)
  {
    match f
    case MissingDirectory =>
    case Coverage(c) => SilenceIsCoverage(Plan(inp), Decisions(events));
    case ComposedUndeclared(e) => TaskMeaning(inp.capabilities, e);
    case ComposedForbidden(e) => TaskMeaning(inp.capabilities, e);
    case NotRefused(t) => RefusalMeaning(events, t);
    case BaseAfterCore => PhaseMeaning(events);
    case NotOnDisk(s) =>
      if ComposedIn(events, s) {
        var e :| e in events && e.ty == COMPOSED && Subject(e) == Some(s);
        SubjectMeaning(e, s);
      }
  }

  lemma SilentRun(inp: Inputs, run: Run)
    requires LawfulSetup(inp)
    requires forall v :: !ViolatesIn(inp, Ledger(inp), run, v)
    ensures LawfulRun(inp, run)
  {
    assert !ViolatesIn(inp, Ledger(inp), run, OfRun(run, MissingDirectory));
    forall log | log in inp.logs[run] && EndsWith(log.name, SUFFIX) ensures LawfulLog(inp, run, log) {
      forall f ensures !LogFinding(run, log, Ledger(inp), f) {
        assert !ViolatesIn(inp, Ledger(inp), run, OfLog(run, log, f));
      }
      LogSilence(run, log, Ledger(inp));
    }
    forall f ensures !RunFinding(inp, Stream(inp.logs[run]), f) {
      assert !ViolatesIn(inp, Ledger(inp), run, OfRun(run, f));
    }
    SilentStream(inp, Stream(inp.logs[run]));
  }

  lemma LawfulRunIsSilent(inp: Inputs, run: Run, v: Violation)
    requires LawfulRun(inp, run)
    ensures !ViolatesIn(inp, Ledger(inp), run, v)
  {
    match v
    case OfLog(r, log, f) =>
      if r == run && log in inp.logs[run] && EndsWith(log.name, SUFFIX) {
        LogSilence(run, log, Ledger(inp));
      }
    case OfRun(r, f) => LawfulStreamIsSilent(inp, Stream(inp.logs[run]), f);
    case OfSetup(f) =>
  }

  lemma ConformantRuns(inp: Inputs)
    requires Conformant(inp)
    ensures LawfulSetup(inp) && LawfulRun(inp, Run1) && LawfulRun(inp, Run2)
  {
    forall f: SetupFault ensures !SetupFinding(inp, f) { assert !Violates(inp, OfSetup(f)); }
    SilentSetup(inp);
    forall v ensures !ViolatesIn(inp, Ledger(inp), Run1, v) && !ViolatesIn(inp, Ledger(inp), Run2, v) {
      assert !Violates(inp, v);
    }
    SilentRun(inp, Run1);
    SilentRun(inp, Run2);
  }

  lemma ConformantFlips(inp: Inputs)
    requires Conformant(inp) && Run1 in inp.logs && Run2 in inp.logs
    ensures Flips(inp)
  {
    assert !Violates(inp, OfSetup(NoFlip));
    var flipped := GuardedSubjects(Stream(inp.logs[Run2])) - GuardedSubjects(Stream(inp.logs[Run1]));
    var x :| x in flipped;
  }

  /** The verdict is `conformant` exactly when setup, both runs and the flip are lawful. */
  lemma ConformantIsLawful(inp: Inputs)
    ensures Conformant(inp) <==> Lawful(inp)
  {
    if Conformant(inp) {
      ConformantRuns(inp);
      ConformantFlips(inp);
    }
    if Lawful(inp) {
      forall f: SetupFault | !f.NoFlip? ensures !SetupFinding(inp, f) { LawfulSetupIsSilent(inp, f); }
      var a, b := GuardedSubjects(Stream(inp.logs[Run1])), GuardedSubjects(Stream(inp.logs[Run2]));
      var x :| x in b && x !in a;
      assert x in b - a;
      forall v ensures !Violates(inp, v) {
        LawfulRunIsSilent(inp, Run1, v);
        LawfulRunIsSilent(inp, Run2, v);
      }
    }
  }

  // ---------------------------------------------------------------- the guard flip

  /** The step was composed in run 1, where nothing of its subject was refused, and refused
      admission in run 2; if its subject is a module, the module's file is on disk. */
  ghost predicate FlippedStep(inp: Inputs, s: PlanStep)
    requires Run1 in inp.logs && Run2 in inp.logs
  {
    && s in Plan(inp)
    && (exists e :: e in Stream(inp.logs[Run1]) && e.ty == "task_composed" && Decides(e, s))
    && (exists e :: e in Stream(inp.logs[Run2]) && e.ty == "task_admission_refused" && Decides(e, s))
    && (forall e :: e in Stream(inp.logs[Run1]) && e.ty == "task_admission_refused" ==>
          !FirstRel(e.rels, "subject", s.subject))
    && (s.subject != "" && s.subject[0] in CAPITALS ==> FileOf(s.subject) in inp.files)
  }

  lemma DecidedInBoth(inp: Inputs, e2: Event) returns (s: PlanStep, e1: Event)
    requires LawfulRun(inp, Run1) && LawfulRun(inp, Run2)
    requires e2 in Stream(inp.logs[Run2]) && IsDecision(e2)
    ensures s in Plan(inp) && PlanKey(s) == KeyOf(e2) == KeyOf(e1)
    ensures e1 in Stream(inp.logs[Run1]) && IsDecision(e1)
  {
    DecisionWithKey(Stream(inp.logs[Run2]), KeyOf(e2));
    DecisionWithKey(Stream(inp.logs[Run1]), KeyOf(e2));
    assert KeyOf(e2) in PlanKeys(Plan(inp));
    var i :| 0 <= i < |Plan(inp)| && PlanKeys(Plan(inp))[i] == KeyOf(e2);
    s := Plan(inp)[i];
    e1 :| e1 in Stream(inp.logs[Run1]) && IsDecision(e1) && KeyOf(e1) == KeyOf(e2);
  }

  /** A conformant verdict shows a planned step that really turned from composed to refused. */
  lemma GuardFlipIsReal(inp: Inputs)
    requires Conformant(inp)
    ensures Run1 in inp.logs && Run2 in inp.logs && exists s :: FlippedStep(inp, s)
  {
    ConformantIsLawful(inp);
    var x :| x in GuardedSubjects(Stream(inp.logs[Run2])) && x !in GuardedSubjects(Stream(inp.logs[Run1]));
    var e2 :| e2 in Stream(inp.logs[Run2]) && e2.ty == GUARDED && Subject(e2) == x;
    var s, e1 := DecidedInBoth(inp, e2);
    assert Subject(e1) == x == Some(s.subject);
    assert e1.ty == COMPOSED;
    KeysJoin(e1, s);
    KeysJoin(e2, s);
    forall e | e in Stream(inp.logs[Run1]) && e.ty == GUARDED ensures !FirstRel(e.rels, "subject", s.subject) {
      QualifiedMeaning(e.rels, "subject", s.subject);
    }
    if s.subject != "" && s.subject[0] in CAPITALS { assert ComposesModule(e1, s.subject); }
    assert FlippedStep(inp, s);
  }

  // ---------------------------------------------------------------- one decision per step, in both runs

  /** Exactly one event decides the step. */
  ghost predicate DecidedOnce(s: PlanStep, decisions: seq<Event>) {
    exists j :: 0 <= j < |decisions| && Decides(decisions[j], s)
                && forall i :: 0 <= i < |decisions| && Decides(decisions[i], s) ==> i == j
  }

  /** The event decides exactly one step. */
  ghost predicate PlannedOnce(plan: seq<PlanStep>, e: Event) {
    exists j :: 0 <= j < |plan| && Decides(e, plan[j])
                && forall i :: 0 <= i < |plan| && Decides(e, plan[i]) ==> i == j
  }

  ghost predicate EachOnce(plan: seq<PlanStep>, decisions: seq<Event>) {
    && |plan| == |decisions|
    && (forall s :: s in plan ==> DecidedOnce(s, decisions))
    && (forall e :: e in decisions ==> PlannedOnce(plan, e))
  }

  lemma OnceByKeys(plan: seq<PlanStep>, decisions: seq<Event>)
    requires OneToOne(PlanKeys(plan), DecisionKeys(decisions))
    ensures EachOnce(plan, decisions)
  {
    forall s | s in plan ensures DecidedOnce(s, decisions) {
      var i :| 0 <= i < |plan| && plan[i] == s;
      assert OccursOnce(PlanKeys(plan)[i], DecisionKeys(decisions));
      StepOnce(s, decisions);
    }
    forall e | e in decisions ensures PlannedOnce(plan, e) {
      var j :| 0 <= j < |decisions| && decisions[j] == e;
      assert OccursOnce(DecisionKeys(decisions)[j], PlanKeys(plan));
      EventOnce(plan, e);
    }
  }

  lemma StepOnce(s: PlanStep, decisions: seq<Event>)
    requires OccursOnce(PlanKey(s), DecisionKeys(decisions))
    ensures DecidedOnce(s, decisions)
  {
    forall e ensures KeyOf(e) == PlanKey(s) <==> Decides(e, s) { KeysJoin(e, s); }
    var keys := DecisionKeys(decisions);
    var j :| 0 <= j < |keys| && keys[j] == PlanKey(s)
             && forall i :: 0 <= i < |keys| && keys[i] == PlanKey(s) ==> i == j;
    assert Decides(decisions[j], s);
    forall i | 0 <= i < |decisions| && Decides(decisions[i], s) ensures i == j { assert keys[i] == PlanKey(s); }
  }

  lemma EventOnce(plan: seq<PlanStep>, e: Event)
    requires OccursOnce(KeyOf(e), PlanKeys(plan))
    ensures PlannedOnce(plan, e)
  {
    forall s ensures KeyOf(e) == PlanKey(s) <==> Decides(e, s) { KeysJoin(e, s); }
    var keys := PlanKeys(plan);
    var j :| 0 <= j < |keys| && keys[j] == KeyOf(e) && forall i :: 0 <= i < |keys| && keys[i] == KeyOf(e) ==> i == j;
    assert Decides(e, plan[j]);
    forall i | 0 <= i < |plan| && Decides(e, plan[i]) ensures i == j { assert keys[i] == KeyOf(e); }
  }

  lemma DecisionsArePlanSteps(inp: Inputs, run: Run)
    requires Conformant(inp) && NoRepeats(PlanKeys(Plan(inp)))
    ensures run in inp.logs
    ensures OneToOne(PlanKeys(Plan(inp)), DecisionKeys(Decisions(Stream(inp.logs[run]))))
    ensures EachOnce(Plan(inp), Decisions(Stream(inp.logs[run])))
    ensures SummaryOf(Stream(inp.logs[run])).decisions == |Plan(inp)|
  {
    ConformantIsLawful(inp);
    assert LawfulRun(inp, run) by { assert run == Run1 || run == Run2; }
    var ds := Decisions(Stream(inp.logs[run]));
    SilenceIsCoverage(Plan(inp), ds);
    CoverageBijection(Plan(inp), ds);
    OnceByKeys(Plan(inp), ds);
    DecisionsCount(Stream(inp.logs[run]));
  }

  lemma ReadersOfAll(id: string)
    ensures forall e :: Task(e) == Some(id) <==> FirstRel(e.rels, "generator", id)
    ensures forall e :: Subject(e) == Some(id) <==> FirstRel(e.rels, "subject", id)
  {
    forall e
      ensures Task(e) == Some(id) <==> FirstRel(e.rels, "generator", id)
      ensures Subject(e) == Some(id) <==> FirstRel(e.rels, "subject", id)
    {
      QualifiedMeaning(e.rels, "generator", id);
      QualifiedMeaning(e.rels, "subject", id);
    }
  }

  /** The places of the events of one type. */
  function Places(events: seq<Event>, ty: string): set<nat> {
    set i: nat | i < |events| && events[i].ty == ty
  }

  lemma {:induction false} OfTypeCount(events: seq<Event>, ty: string)
    ensures |OfType(events, ty)| == |Places(events, ty)|
  {
    if events != [] {
      var n: nat := |events| - 1;
      OfTypeCount(events[..n], ty);
      assert Places(events, ty) == Places(events[..n], ty) + if events[n].ty == ty then {n} else {};
    } else {
      assert Places(events, ty) == {};
    }
  }

  /** The summary of a run: the tasks it composed and refused, the subjects it refused admission. */
  lemma SummaryMeaning(events: seq<Event>, id: string)
    ensures var summary := SummaryOf(events);
            && summary.events == |events|
            && summary.composedCount == |Places(events, "task_composed")|
            && summary.decisions == |Places(events, "task_composed")| + |Places(events, "task_admission_refused")|
            && (Some(id) in summary.composedTasks <==>
                 exists e :: e in events && e.ty == "task_composed" && FirstRel(e.rels, "generator", id))
            && (Some(id) in summary.refused <==>
                 exists e :: e in events && e.ty == "capability_refused" && FirstRel(e.rels, "generator", id))
            && (Some(id) in summary.guarded <==>
                 exists e :: e in events && e.ty == "task_admission_refused" && FirstRel(e.rels, "subject", id))
  {
    ReadersOfAll(id);
    OfTypeCount(events, COMPOSED);
    OfTypeCount(events, GUARDED);
  }

  // ---------------------------------------------------------------- seals and ledger

  ghost predicate IsLogOf(inp: Inputs, run: Run, log: Log) {
    run in inp.logs && log in inp.logs[run] && EndsWith(log.name, SUFFIX)
  }

  /** With a ledger that labels anything, every log of both runs is sealed, each seal is an applied
      one with exit 0, and the ledger's last record of that manufacture step has exit 0. */
  lemma SealsAndLedgerAgree(inp: Inputs, run: Run, log: Log)
    requires Conformant(inp) && Ledger(inp) != map[] && IsLogOf(inp, run, log)
    ensures SealedApplied(log.doc)
    ensures forall e :: e in EventsIn(log.doc) && IsSeal(e) ==> LastAttr(e.attrs, "exit", Num(0))
    ensures LastExit(inp.ledger.value, LedgerLabel(run, log.name)) == Some(Some(Num(0)))
  {
    ConformantIsLawful(inp);
    assert LawfulRun(inp, run) by { assert run == Run1 || run == Run2; }
    assert LawfulLog(inp, run, log);
  }

  lemma {:induction false} StreamedFromALog(logs: seq<Log>, e: Event)
    requires e in Stream(logs)
    ensures exists log :: log in logs && EndsWith(log.name, SUFFIX)
  {
    var n := |logs| - 1;
    if e in Stream(logs[..n]) {
      StreamedFromALog(logs[..n], e);
    } else {
      assert logs[n] in logs;
    }
  }

  lemma SomeLog(inp: Inputs)
    requires Conformant(inp)
    ensures exists log :: IsLogOf(inp, Run1, log)
  {
    ConformantIsLawful(inp);
    var s := Plan(inp)[0];
    assert PlanKeys(Plan(inp))[0] == PlanKey(s);
    assert PlanKey(s) in PlanKeys(Plan(inp));
    DecisionWithKey(Stream(inp.logs[Run1]), PlanKey(s));
    var e :| e in Stream(inp.logs[Run1]) && IsDecision(e) && KeyOf(e) == PlanKey(s);
    StreamedFromALog(inp.logs[Run1], e);
    var log :| log in inp.logs[Run1] && EndsWith(log.name, SUFFIX);
    assert IsLogOf(inp, Run1, log);
  }

  /** Conformance means that every log is corroborated by the ledger if and only if the ledger
      labels anything. */
  lemma CorroboratedIffLabelled(inp: Inputs)
    requires Conformant(inp)
    ensures (forall run, log :: IsLogOf(inp, run, log) ==> GoodLog(run, log, Ledger(inp))) <==> Ledger(inp) != map[]
  {
    ConformantIsLawful(inp);
    if Ledger(inp) != map[] {
      forall run, log | IsLogOf(inp, run, log) ensures GoodLog(run, log, Ledger(inp)) {
        assert LawfulRun(inp, run) by { assert run == Run1 || run == Run2; }
        assert LawfulLog(inp, run, log);
      }
    }
    if forall run, log :: IsLogOf(inp, run, log) ==> GoodLog(run, log, Ledger(inp)) {
      SomeLog(inp);
      var log :| IsLogOf(inp, Run1, log);
      assert GoodLog(Run1, log, Ledger(inp));
    }
  }

  // ---------------------------------------------------------------- a verdict over failed runs

  const STEP: PlanStep := PlanStep("base", "resource", "ash.gen.resource", "book")

  /** A decision on the one plan step. */
  function Decided(ty: string): Event {
    Event("e1", ty, [Attr("phase", Str("base")), Attr("step", Str("resource"))],
          [Rel("book", "subject"), Rel("ash.gen.resource", "generator")])
  }

  /** A seal that says the run was applied although it ended with exit 7. */
  function FalseSeal(): Event { Event("e2", APPLIED, [Attr("exit", Num(7))], []) }

  function FalseLog(ty: string): Log {
    Log("shop.base.ocel.json",
        Doc(Some([TypeNamed(Some(ty)), TypeNamed(Some(APPLIED))]), Some([TypeNamed(Some("object"))]),
            Some([Decided(ty), FalseSeal()]),
            Some([Object(Some("book"), Some("object")), Object(Some("ash.gen.resource"), Some("object"))])))
  }

  /** Both runs failed, and the ledger is there but labels nothing. */
  function FalseInputs(): Inputs {
    Inputs(true, {}, [[STEP]], Some([]), map["ash.gen.resource" := true],
           map[Run1 := [FalseLog(COMPOSED)], Run2 := [FalseLog(GUARDED)]])
  }

  lemma FalseLogIsSound(ty: string)
    requires ty == COMPOSED || ty == GUARDED
    ensures EndsWith(FalseLog(ty).name, SUFFIX) && SoundLog(FalseLog(ty).doc)
  {
    var log, doc := FalseLog(ty), FalseLog(ty).doc;
    assert log.name[|log.name| - |SUFFIX|..] == SUFFIX;
    assert EventsIn(doc) == [Decided(ty), FalseSeal()];
    assert FalseSeal() in EventsIn(doc);
    assert Ids(EventsIn(doc)) == ["e1", "e2"];
    var events, objects, types := doc.eventTypes.value, doc.objects.value, doc.objectTypes.value;
    assert events[0] in events && events[1] in events && objects[0] in objects && objects[1] in objects;
    assert types[0] in types;
    assert types[0].name in Declared(doc.objectTypes);
    assert events[0].name in Declared(doc.eventTypes) && events[1].name in Declared(doc.eventTypes);
    assert objects[0].id in ObjectIds(doc) && objects[1].id in ObjectIds(doc);
  }

  lemma FalseDecision(ty: string)
    ensures KeyOf(Decided(ty)) == PlanKey(STEP)
    ensures Subject(Decided(ty)) == Some("book") && Task(Decided(ty)) == Some("ash.gen.resource")
    ensures Phase(FalseSeal()) == None
  {
    var e := Decided(ty);
    assert e.attrs[..1] == [Attr("phase", Str("base"))];
    assert e.rels[1..] == [Rel("ash.gen.resource", "generator")];
    assert FalseSeal().attrs[..0] == [];
  }

  lemma FalseStream(ty: string)
    requires ty == COMPOSED || ty == GUARDED
    ensures Stream([FalseLog(ty)]) == [Decided(ty), FalseSeal()]
    ensures DecisionKeys(Decisions([Decided(ty), FalseSeal()])) == [PlanKey(STEP)]
  {
    FalseLogIsSound(ty);
    FalseDecision(ty);
    assert [FalseLog(ty)][..0] == [];
    assert [Decided(ty), FalseSeal()][..1] == [Decided(ty)];
    assert [Decided(ty)][..0] == [];
    assert Decisions([Decided(ty), FalseSeal()]) == [Decided(ty)];
  }

  lemma FalseStreamIsCovered(ty: string)
    requires ty == COMPOSED || ty == GUARDED
    ensures Covered([STEP], Decisions([Decided(ty), FalseSeal()]))
  {
    FalseStream(ty);
    assert PlanKeys([STEP]) == [PlanKey(STEP)];
  }

  lemma FalseStreamIsOrdered(ty: string)
    ensures !BaseFollowsCore([Decided(ty), FalseSeal()])
  {
    FalseDecision(ty);
    PhaseMeaning([Decided(ty), FalseSeal()]);
  }

  lemma FalseStreamIsAdmitted(ty: string, e: Event)
    requires e in [Decided(ty), FalseSeal()] && e.ty == COMPOSED
    ensures Task(e) == Some("ash.gen.resource") && Subject(e) == Some("book")
  {
    FalseDecision(ty);
  }

  lemma FalseStreamIsLawful(ty: string)
    requires ty == COMPOSED || ty == GUARDED
    ensures LawfulStream(FalseInputs(), [Decided(ty), FalseSeal()])
  {
    FalseStreamIsCovered(ty);
    FalseStreamIsOrdered(ty);
    var events := [Decided(ty), FalseSeal()];
    PhaseMeaning(events);
    forall e | e in events && e.ty == "task_composed" ensures ComposesAdmitted(FalseInputs().capabilities, e) {
      FalseStreamIsAdmitted(ty, e);
      TaskMeaning(FalseInputs().capabilities, e);
    }
    forall e, s | e in events ensures !ComposesModule(e, s) {
      SubjectMeaning(e, s);
      if e.ty == COMPOSED { FalseStreamIsAdmitted(ty, e); }
      assert !IsModule("book");
    }
  }

  lemma FalseLedger()
    ensures Ledger(FalseInputs()) == map[]
  {
    assert Labels([]) == [];
  }

  lemma FalseLogIsLawful(run: Run, ty: string)
    requires ty == if run == Run1 then COMPOSED else GUARDED
    ensures FalseInputs().logs[run] == [FalseLog(ty)] && EndsWith(FalseLog(ty).name, SUFFIX)
    ensures LawfulLog(FalseInputs(), run, FalseLog(ty))
  {
    FalseLogIsSound(ty);
    FalseLedger();
  }

  lemma OneLogIsLawful(inp: Inputs, run: Run, log: Log, events: seq<Event>)
    requires run in inp.logs && inp.logs[run] == [log] && EndsWith(log.name, SUFFIX) && LawfulLog(inp, run, log)
    requires Stream([log]) == events && LawfulStream(inp, events)
    ensures LawfulRun(inp, run) && IsLogOf(inp, run, log)
  {
  }

  lemma FalseRunIsLawful(run: Run, ty: string)
    requires ty == if run == Run1 then COMPOSED else GUARDED
    ensures IsLogOf(FalseInputs(), run, FalseLog(ty)) && LawfulRun(FalseInputs(), run)
    ensures Stream(FalseInputs().logs[run]) == [Decided(ty), FalseSeal()]
  {
    FalseLogIsLawful(run, ty);
    FalseStream(ty);
    FalseStreamIsLawful(ty);
    OneLogIsLawful(FalseInputs(), run, FalseLog(ty), [Decided(ty), FalseSeal()]);
  }

  lemma FalseFlip(x: Option<string>)
    requires x == Some("book")
    ensures x in GuardedSubjects([Decided(GUARDED), FalseSeal()])
    ensures x !in GuardedSubjects([Decided(COMPOSED), FalseSeal()])
  {
    FalseDecision(GUARDED);
    var events := [Decided(GUARDED), FalseSeal()];
    assert events[0] in events;
  }

  lemma FalseInputsAreLawful()
    ensures Lawful(FalseInputs())
  {
    FalseRunIsLawful(Run1, COMPOSED);
    FalseRunIsLawful(Run2, GUARDED);
    FalseFlip(Some("book"));
    assert Labels([]) == [];
  }

  /** The verdict can be `conformant` although both runs ended with exit 7. */
  lemma FailedRunsConform()
    ensures Conformant(FalseInputs())
    ensures IsLogOf(FalseInputs(), Run1, FalseLog(COMPOSED)) && IsLogOf(FalseInputs(), Run2, FalseLog(GUARDED))
    ensures forall ty :: FalseSeal() in EventsIn(FalseLog(ty).doc)
    ensures IsSeal(FalseSeal()) && ExitOf(FalseSeal()) == Some(Num(7))
  {
    FalseInputsAreLawful();
    ConformantIsLawful(FalseInputs());
    FalseRunIsLawful(Run1, COMPOSED);
    FalseRunIsLawful(Run2, GUARDED);
    forall ty ensures FalseSeal() in EventsIn(FalseLog(ty).doc) {
      assert EventsIn(FalseLog(ty).doc)[1] == FalseSeal();
    }
  }
}
