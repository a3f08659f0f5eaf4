/** The coverage join: the rendered plan against the observed decision events of one run. */
module Coverage {
  import opened Text
  import opened Ocel

  function Decisions(events: seq<Event>): seq<Event> {
    if events == [] then []
    else
      var last := events[|events| - 1];
      Decisions(events[..|events| - 1]) + (if IsDecision(last) then [last] else [])
  }

  function DecisionKeys(decisions: seq<Event>): (keys: seq<Key>) {
    seq(|decisions|, i requires 0 <= i < |decisions| => KeyOf(decisions[i]))
  }

  function PlanKeys(plan: seq<PlanStep>): (keys: seq<Key>) {
    seq(|plan|, i requires 0 <= i < |plan| => PlanKey(plan[i]))
  }

  /** The ids of the decisions with this key, in stream order. */
  function IdsFor(decisions: seq<Event>, key: Key): seq<string> {
    if decisions == [] then []
    else
      var last := decisions[|decisions| - 1];
      IdsFor(decisions[..|decisions| - 1], key) + (if KeyOf(last) == key then [last.id] else [])
  }

  /** The plan steps with this key. */
  function StepsFor(plan: seq<PlanStep>, key: Key): seq<PlanStep> {
    if plan == [] then []
    else
      var last := plan[|plan| - 1];
      StepsFor(plan[..|plan| - 1], key) + (if PlanKey(last) == key then [last] else [])
  }

  function StepsInPhase(plan: seq<PlanStep>, phase: string): nat {
    if plan == [] then 0
    else StepsInPhase(plan[..|plan| - 1], phase) + (if plan[|plan| - 1].phase == phase then 1 else 0)
  }

  ghost predicate Silent(decisions: seq<Event>, phase: Option<Value>) {
    forall e :: e in decisions ==> Phase(e) != phase
  }

  /** What the coverage join reports. */
  ghost predicate CoverageFinding(plan: seq<PlanStep>, decisions: seq<Event>, f: CoverageFault) {
    match f
    case SilentPhase(p, n) =>
      (exists s :: s in plan && s.phase == p) && Silent(decisions, Some(Str(p))) && n == StepsInPhase(plan, p)
    case StepVanished(k) => StepsFor(plan, k) != [] && !Silent(decisions, k.phase) && IdsFor(decisions, k) == []
    case DoubleCounted(k, ids, n) =>
      n == |StepsFor(plan, k)| && 0 < n < |ids| && ids == IdsFor(decisions, k)
    case Unplanned(k, ids) => StepsFor(plan, k) == [] && ids == IdsFor(decisions, k) != []
  }

  ghost predicate IsCoverage(run: Run, v: Violation) {
    v.OfRun? && v.run == run && v.runFault.Coverage?
  }

  /** Exactly the coverage findings, each once. */
  ghost predicate CoverageReport(run: Run, plan: seq<PlanStep>, decisions: seq<Event>, added: seq<Violation>) {
    && NoRepeats(added)
    && forall v :: v in added <==> IsCoverage(run, v) && CoverageFinding(plan, decisions, v.runFault.c)
  }

  // ---------------------------------------------------------------- the join

  ghost predicate Groups(grouped: map<Key, seq<string>>, decisions: seq<Event>) {
    && (forall k :: k in grouped <==> IdsFor(decisions, k) != [])
    && (forall k :: k in grouped ==> grouped[k] == IdsFor(decisions, k))
  }

  ghost predicate GroupsPlan(grouped: map<Key, seq<PlanStep>>, plan: seq<PlanStep>) {
    && (forall k :: k in grouped <==> StepsFor(plan, k) != [])
    && (forall k :: k in grouped ==> grouped[k] == StepsFor(plan, k))
  }

  method SelectDecisions(events: seq<Event>) returns (decisions: seq<Event>)
    ensures decisions == Decisions(events)
  {
    decisions := [];
    for i := 0 to |events|
      invariant decisions == Decisions(events[..i])
    {
      assert events[..i + 1][..i] == events[..i];
      if IsDecision(events[i]) {
        decisions := decisions + [events[i]];
      }
    }
    assert events[..|events|] == events;
  }

  method GroupDecisions(decisions: seq<Event>) returns (observed: map<Key, seq<string>>)
    ensures Groups(observed, decisions)
  {
    observed := map[];
    for i := 0 to |decisions|
      invariant Groups(observed, decisions[..i])
    {
      assert decisions[..i + 1][..i] == decisions[..i];
      var key := KeyOf(decisions[i]);
      observed := observed[key := (if key in observed then observed[key] else []) + [decisions[i].id]];
    }
    assert decisions[..|decisions|] == decisions;
  }

  method GroupPlan(plan: seq<PlanStep>) returns (planned: map<Key, seq<PlanStep>>)
    ensures GroupsPlan(planned, plan)
  {
    planned := map[];
    for i := 0 to |plan|
      invariant GroupsPlan(planned, plan[..i])
    {
      assert plan[..i + 1][..i] == plan[..i];
      var key := PlanKey(plan[i]);
      planned := planned[key := (if key in planned then planned[key] else []) + [plan[i]]];
    }
    assert plan[..|plan|] == plan;
  }

  method CountInPhase(plan: seq<PlanStep>, phase: string) returns (n: nat)
    ensures n == StepsInPhase(plan, phase)
  {
    n := 0;
    for i := 0 to |plan|
      invariant n == StepsInPhase(plan[..i], phase)
    {
      assert plan[..i + 1][..i] == plan[..i];
      if plan[i].phase == phase {
        n := n + 1;
      }
    }
    assert plan[..|plan|] == plan;
  }

  lemma {:induction false} InIdsFor(decisions: seq<Event>, key: Key)
    ensures IdsFor(decisions, key) != [] <==> exists e :: e in decisions && KeyOf(e) == key
  {
    if decisions != [] {
      var n := |decisions| - 1;
      InIdsFor(decisions[..n], key);
      assert forall e :: e in decisions <==> e in decisions[..n] || e == decisions[n];
    }
  }

  lemma {:induction false} InStepsFor(plan: seq<PlanStep>, key: Key)
    ensures StepsFor(plan, key) != [] <==> exists s :: s in plan && PlanKey(s) == key
  {
    if plan != [] {
      var n := |plan| - 1;
      InStepsFor(plan[..n], key);
      assert forall s :: s in plan <==> s in plan[..n] || s == plan[n];
    }
  }

  lemma ObservedPhases(observed: map<Key, seq<string>>, decisions: seq<Event>, phase: Option<Value>)
    requires Groups(observed, decisions)
    ensures phase in (set k | k in observed :: k.phase) <==> !Silent(decisions, phase)
  {
    if e :| e in decisions && Phase(e) == phase {
      InIdsFor(decisions, KeyOf(e));
      assert KeyOf(e) in observed;
    }
    if k :| k in observed && k.phase == phase {
      InIdsFor(decisions, k);
    }
  }

  /** `check_coverage`. */
  method CheckCoverage(result: Report, run: Run, plan: seq<PlanStep>, events: seq<Event>)
    returns (ghost added: seq<Violation>)
    modifies result`violations
    ensures result.violations == old(result.violations) + added
    ensures CoverageReport(run, plan, Decisions(events), added)
  {
    var decisions := SelectDecisions(events);
    var observed := GroupDecisions(decisions);
    var planned := GroupPlan(plan);
    var silent, first := ReportSilentPhases(result, run, plan, decisions, observed);
    var second := ReportPlanned(result, run, observed, planned, silent);
    forall f: CoverageFault | f.StepVanished? || f.DoubleCounted?
      ensures Reported(observed, planned, silent, f) <==> CoverageFinding(plan, decisions, f)
    {
      ReportedIsFinding(plan, decisions, observed, planned, silent, f);
    }
    var third := ReportUnplanned(result, run, plan, decisions, observed, planned);
    NoRepeatsConcat(first, second);
    NoRepeatsConcat(first + second, third);
    added := first + second + third;
  }

  method ReportSilentPhases(result: Report, run: Run, plan: seq<PlanStep>, ghost decisions: seq<Event>,
                            observed: map<Key, seq<string>>)
    returns (silent: set<string>, ghost added: seq<Violation>)
    requires Groups(observed, decisions)
    modifies result`violations
    ensures result.violations == old(result.violations) + added
    ensures NoRepeats(added)
    ensures forall v :: v in added <==>
      IsCoverage(run, v) && v.runFault.c.SilentPhase? && CoverageFinding(plan, decisions, v.runFault.c)
    ensures forall p :: p in silent <==> (exists s :: s in plan && s.phase == p) && Silent(decisions, Some(Str(p)))
  {
    var observedPhases := set k | k in observed :: k.phase;
    forall p: Option<Value> ensures p in observedPhases <==> !Silent(decisions, p) {
      ObservedPhases(observed, decisions, p);
    }
    var phases := set s | s in plan :: s.phase;
    var todo := phases;
    silent, added := {}, [];
    while todo != {}
      invariant todo <= phases
      invariant result.violations == old(result.violations) + added
      invariant NoRepeats(added)
      invariant forall v :: v in added <==>
        IsCoverage(run, v) && v.runFault.c.SilentPhase? && v.runFault.c.phase !in todo &&
        CoverageFinding(plan, decisions, v.runFault.c)
      invariant forall p :: p in silent <==> p in phases && p !in todo && Silent(decisions, Some(Str(p)))
    {
      var phase :| phase in todo;
      if Some(Str(phase)) !in observedPhases {
        silent := silent + {phase};
        var n := CountInPhase(plan, phase);
        result.Add(OfRun(run, Coverage(SilentPhase(phase, n))));
        added := added + [OfRun(run, Coverage(SilentPhase(phase, n)))];
      }
      todo := todo - {phase};
    }
  }

  /** The report on a planned key outside a silent phase, from its decision ids and step count. */
  function PlannedFault(key: Key, ids: seq<string>, planned: nat): Option<CoverageFault> {
    if ids == [] then Some(StepVanished(key))
    else if |ids| > planned then Some(DoubleCounted(key, ids, planned))
    else None
  }

  lemma PlannedFaultIsFinding(plan: seq<PlanStep>, decisions: seq<Event>, f: CoverageFault)
    requires (f.StepVanished? || f.DoubleCounted?) && StepsFor(plan, f.key) != []
    ensures CoverageFinding(plan, decisions, f) <==>
            !Silent(decisions, f.key.phase) &&
              PlannedFault(f.key, IdsFor(decisions, f.key), |StepsFor(plan, f.key)|) == Some(f)
  {
    InIdsFor(decisions, f.key);
  }

  ghost predicate Reported(observed: map<Key, seq<string>>, planned: map<Key, seq<PlanStep>>, silent: set<string>,
                           f: CoverageFault)
  {
    && (f.StepVanished? || f.DoubleCounted?)
    && f.key in planned && !InPhases(silent, f.key)
    && PlannedFault(f.key, if f.key in observed then observed[f.key] else [], |planned[f.key]|) == Some(f)
  }

  predicate InPhases(phases: set<string>, key: Key) {
    key.phase.Some? && key.phase.value.Str? && key.phase.value.text in phases
  }

  method ReportPlanned(result: Report, run: Run, observed: map<Key, seq<string>>, planned: map<Key, seq<PlanStep>>,
                       silent: set<string>)
    returns (ghost added: seq<Violation>)
    modifies result`violations
    ensures result.violations == old(result.violations) + added
    ensures NoRepeats(added)
    ensures forall v :: v in added <==> IsCoverage(run, v) && Reported(observed, planned, silent, v.runFault.c)
  {
    var todo := planned.Keys;
    added := [];
    while todo != {}
      invariant todo <= planned.Keys
      invariant result.violations == old(result.violations) + added
      invariant NoRepeats(added)
      invariant forall v :: v in added <==>
        IsCoverage(run, v) && Reported(observed, planned, silent, v.runFault.c) && v.runFault.c.key !in todo
    {
      var key :| key in todo;
      todo := todo - {key};
      if InPhases(silent, key) {
        continue;
      }
      var fault := PlannedFault(key, if key in observed then observed[key] else [], |planned[key]|);
      if fault.Some? {
        result.Add(OfRun(run, Coverage(fault.value)));
        added := added + [OfRun(run, Coverage(fault.value))];
      }
    }
  }

  lemma ReportedIsFinding(plan: seq<PlanStep>, decisions: seq<Event>, observed: map<Key, seq<string>>,
                          planned: map<Key, seq<PlanStep>>, silent: set<string>, f: CoverageFault)
    requires Groups(observed, decisions) && GroupsPlan(planned, plan)
    requires forall p :: p in silent <==> (exists s :: s in plan && s.phase == p) && Silent(decisions, Some(Str(p)))
    requires f.StepVanished? || f.DoubleCounted?
    ensures Reported(observed, planned, silent, f) <==> CoverageFinding(plan, decisions, f)
  {
    if f.key in planned {
      InStepsFor(plan, f.key);
      PlannedFaultIsFinding(plan, decisions, f);
    }
  }

  method ReportUnplanned(result: Report, run: Run, ghost plan: seq<PlanStep>, ghost decisions: seq<Event>,
                         observed: map<Key, seq<string>>, planned: map<Key, seq<PlanStep>>)
    returns (ghost added: seq<Violation>)
    requires Groups(observed, decisions) && GroupsPlan(planned, plan)
    modifies result`violations
    ensures result.violations == old(result.violations) + added
    ensures NoRepeats(added)
    ensures forall v :: v in added <==>
      IsCoverage(run, v) && v.runFault.c.Unplanned? && CoverageFinding(plan, decisions, v.runFault.c)
  {
    var todo := observed.Keys;
    added := [];
    while todo != {}
      invariant todo <= observed.Keys
      invariant result.violations == old(result.violations) + added
      invariant NoRepeats(added)
      invariant forall v :: v in added <==>
        IsCoverage(run, v) && v.runFault.c.Unplanned? && v.runFault.c.key !in todo &&
        CoverageFinding(plan, decisions, v.runFault.c)
    {
      var key :| key in todo;
      if key !in planned {
        result.Add(OfRun(run, Coverage(Unplanned(key, observed[key]))));
        added := added + [OfRun(run, Coverage(Unplanned(key, observed[key])))];
      }
      todo := todo - {key};
    }
  }
}
