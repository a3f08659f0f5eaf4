/** What the coverage report amounts to: its size for every plan and stream, and what its silence
    says about plan steps and decision events. */
module CoverageTheorems {
  import opened Text
  import opened Ocel
  import opened Coverage

  ghost predicate CoverageSilent(plan: seq<PlanStep>, decisions: seq<Event>) {
    forall f :: !CoverageFinding(plan, decisions, f)
  }

  // ---------------------------------------------------------------- counting by key

  lemma {:induction false} IdsForCounts(decisions: seq<Event>, k: Key)
    ensures |IdsFor(decisions, k)| == multiset(DecisionKeys(decisions))[k]
  {
    if decisions != [] {
      var n := |decisions| - 1;
      IdsForCounts(decisions[..n], k);
      assert DecisionKeys(decisions) == DecisionKeys(decisions[..n]) + [KeyOf(decisions[n])];
    }
  }

  lemma {:induction false} StepsForCounts(plan: seq<PlanStep>, k: Key)
    ensures |StepsFor(plan, k)| == multiset(PlanKeys(plan))[k]
  {
    if plan != [] {
      var n := |plan| - 1;
      StepsForCounts(plan[..n], k);
      assert PlanKeys(plan) == PlanKeys(plan[..n]) + [PlanKey(plan[n])];
    }
  }

  lemma Counted(plan: seq<PlanStep>, decisions: seq<Event>, k: Key)
    ensures |IdsFor(decisions, k)| == multiset(DecisionKeys(decisions))[k]
    ensures |StepsFor(plan, k)| == multiset(PlanKeys(plan))[k]
    ensures k in DecisionKeys(decisions) <==> IdsFor(decisions, k) != []
    ensures k in PlanKeys(plan) <==> StepsFor(plan, k) != []
  {
    IdsForCounts(decisions, k);
    StepsForCounts(plan, k);
    assert k in DecisionKeys(decisions) <==> k in multiset(DecisionKeys(decisions));
    assert k in PlanKeys(plan) <==> k in multiset(PlanKeys(plan));
  }

  // ---------------------------------------------------------------- silence

  /** Every planned key is decided, every decided key is planned, and none more often than planned. */
  ghost predicate Covered(plan: seq<PlanStep>, decisions: seq<Event>) {
    && (forall k :: k in PlanKeys(plan) <==> k in DecisionKeys(decisions))
    && multiset(DecisionKeys(decisions)) <= multiset(PlanKeys(plan))
  }

  lemma DecidedPhaseIsNotSilent(decisions: seq<Event>, k: Key)
    requires k in DecisionKeys(decisions)
    ensures !Silent(decisions, k.phase)
  {
  }

  lemma PlannedPhaseIsNotSilent(plan: seq<PlanStep>, decisions: seq<Event>, k: Key)
    requires CoverageSilent(plan, decisions) && k in PlanKeys(plan)
    ensures !Silent(decisions, k.phase)
  {
    var i :| 0 <= i < |plan| && PlanKeys(plan)[i] == k;
    assert plan[i] in plan;
    assert !CoverageFinding(plan, decisions, SilentPhase(plan[i].phase, StepsInPhase(plan, plan[i].phase)));
  }

  lemma SilentKey(plan: seq<PlanStep>, decisions: seq<Event>, k: Key)
    requires CoverageSilent(plan, decisions)
    ensures k in PlanKeys(plan) <==> k in DecisionKeys(decisions)
    ensures multiset(DecisionKeys(decisions))[k] <= multiset(PlanKeys(plan))[k]
  {
    Counted(plan, decisions, k);
    var ids, n := IdsFor(decisions, k), |StepsFor(plan, k)|;
    assert !CoverageFinding(plan, decisions, StepVanished(k));
    assert !CoverageFinding(plan, decisions, DoubleCounted(k, ids, n));
    assert !CoverageFinding(plan, decisions, Unplanned(k, ids));
    if k in PlanKeys(plan) { PlannedPhaseIsNotSilent(plan, decisions, k); }
  }

  lemma CoveredSilences(plan: seq<PlanStep>, decisions: seq<Event>, f: CoverageFault)
    requires Covered(plan, decisions)
    ensures !CoverageFinding(plan, decisions, f)
  {
    match f
    case SilentPhase(p, n) =>
      if s :| s in plan && s.phase == p {
        var i :| 0 <= i < |plan| && plan[i] == s;
        assert PlanKeys(plan)[i] == PlanKey(s);
        DecidedPhaseIsNotSilent(decisions, PlanKey(s));
      }
    case StepVanished(k) => Counted(plan, decisions, k);
    case DoubleCounted(k, ids, n) => Counted(plan, decisions, k);
    case Unplanned(k, ids) => Counted(plan, decisions, k);
  }

  lemma SilenceIsCoverage(plan: seq<PlanStep>, decisions: seq<Event>)
    ensures CoverageSilent(plan, decisions) <==> Covered(plan, decisions)
  {
    if CoverageSilent(plan, decisions) {
      forall k
        ensures k in PlanKeys(plan) <==> k in DecisionKeys(decisions)
        ensures multiset(DecisionKeys(decisions))[k] <= multiset(PlanKeys(plan))[k]
      {
        SilentKey(plan, decisions, k);
      }
    }
    if Covered(plan, decisions) {
      forall f ensures !CoverageFinding(plan, decisions, f) { CoveredSilences(plan, decisions, f); }
    }
  }

  // ---------------------------------------------------------------- one decision per step

  /** Each plan step is decided by exactly one event, and each decision has exactly one step. */
  ghost predicate OneToOne(planKeys: seq<Key>, decisionKeys: seq<Key>) {
    && |planKeys| == |decisionKeys|
    && (forall i :: 0 <= i < |planKeys| ==> OccursOnce(planKeys[i], decisionKeys))
    && (forall j :: 0 <= j < |decisionKeys| ==> OccursOnce(decisionKeys[j], planKeys))
  }

  ghost predicate OccursOnce(k: Key, keys: seq<Key>) {
    exists j :: 0 <= j < |keys| && keys[j] == k && forall i :: 0 <= i < |keys| && keys[i] == k ==> i == j
  }

  lemma OccursOnceIfNoRepeats(k: Key, keys: seq<Key>)
    requires NoRepeats(keys) && k in keys
    ensures OccursOnce(k, keys)
  {
  }

  lemma CoverageBijection(plan: seq<PlanStep>, decisions: seq<Event>)
    requires NoRepeats(PlanKeys(plan)) && CoverageSilent(plan, decisions)
    ensures multiset(DecisionKeys(decisions)) == multiset(PlanKeys(plan))
    ensures OneToOne(PlanKeys(plan), DecisionKeys(decisions))
    ensures |decisions| == |plan|
  {
    var pk, dk := PlanKeys(plan), DecisionKeys(decisions);
    SilenceIsCoverage(plan, decisions);
    forall k ensures multiset(dk)[k] == multiset(pk)[k] {
      NoRepeatsMultiplicity(pk, k);
      assert k in dk <==> k in multiset(dk);
    }
    assert multiset(dk) == multiset(pk);
    RearrangedNoRepeats(dk, pk);
    assert |multiset(dk)| == |dk| && |multiset(pk)| == |pk|;
    forall i | 0 <= i < |pk| ensures OccursOnce(pk[i], dk) { OccursOnceIfNoRepeats(pk[i], dk); }
    forall j | 0 <= j < |dk| ensures OccursOnce(dk[j], pk) { OccursOnceIfNoRepeats(dk[j], pk); }
  }

  /** A decision event for a plan step. */
  function EventFor(s: PlanStep): Event {
    Event("e", COMPOSED, [Attr("phase", Str(s.phase)), Attr("step", Str(s.step))], [Rel(s.subject, "subject")])
  }

  lemma EventForKey(s: PlanStep)
    ensures KeyOf(EventFor(s)) == PlanKey(s) && IsDecision(EventFor(s))
  {
    var attrs := EventFor(s).attrs;
    assert attrs[1].name == "step" && AttrOf(attrs, "step") == Some(Str(s.step));
    assert attrs[..1] == [Attr("phase", Str(s.phase))] && AttrOf(attrs[..1], "phase") == Some(Str(s.phase));
    assert Subject(EventFor(s)) == Some(s.subject);
  }

  /** One decision for each key the plan holds, however often it holds it. */
  function OneEach(plan: seq<PlanStep>): seq<Event> {
    if plan == [] then []
    else
      var rest, last := OneEach(plan[..|plan| - 1]), plan[|plan| - 1];
      if PlanKey(last) in PlanKeys(plan[..|plan| - 1]) then rest else rest + [EventFor(last)]
  }

  lemma {:induction false} OneEachCovers(plan: seq<PlanStep>)
    ensures forall k :: k in DecisionKeys(OneEach(plan)) <==> k in PlanKeys(plan)
    ensures NoRepeats(DecisionKeys(OneEach(plan)))
  {
    if plan != [] {
      var n := |plan| - 1;
      OneEachCovers(plan[..n]);
      EventForKey(plan[n]);
      assert PlanKeys(plan) == PlanKeys(plan[..n]) + [PlanKey(plan[n])];
      if PlanKey(plan[n]) !in PlanKeys(plan[..n]) {
        assert DecisionKeys(OneEach(plan)) == DecisionKeys(OneEach(plan[..n])) + [PlanKey(plan[n])];
      }
    }
  }

  lemma RepeatedKeyEscapes(plan: seq<PlanStep>)
    requires !NoRepeats(PlanKeys(plan))
    ensures CoverageSilent(plan, OneEach(plan)) && !OneToOne(PlanKeys(plan), DecisionKeys(OneEach(plan)))
  {
    var pk, dk := PlanKeys(plan), DecisionKeys(OneEach(plan));
    OneEachCovers(plan);
    forall k ensures multiset(dk)[k] <= multiset(pk)[k] {
      NoRepeatsMultiplicity(dk, k);
      assert k in pk <==> k in multiset(pk);
    }
    SilenceIsCoverage(plan, OneEach(plan));
    var i, j :| 0 <= i < j < |pk| && pk[i] == pk[j];
    assert !OccursOnce(pk[i], pk);
    assert pk[i] in dk;
  }

  /** "Exactly one decision event per plan step" is what silence means for every stream if and
      only if no two plan steps share a key. */
  lemma BijectionNeedsDistinctKeys(plan: seq<PlanStep>)
    ensures NoRepeats(PlanKeys(plan)) <==>
            forall decisions :: CoverageSilent(plan, decisions) ==> OneToOne(PlanKeys(plan), DecisionKeys(decisions))
  {
    if NoRepeats(PlanKeys(plan)) {
      forall decisions | CoverageSilent(plan, decisions) ensures OneToOne(PlanKeys(plan), DecisionKeys(decisions)) {
        CoverageBijection(plan, decisions);
      }
    } else {
      RepeatedKeyEscapes(plan);
    }
  }

  // ---------------------------------------------------------------- the size of the report

  ghost function SilentPhases(plan: seq<PlanStep>, decisions: seq<Event>): set<string> {
    set s | s in plan && Silent(decisions, Some(Str(s.phase))) :: s.phase
  }

  ghost function Unobserved(plan: seq<PlanStep>, decisions: seq<Event>): set<Key> {
    set k | k in PlanKeys(plan) && k !in DecisionKeys(decisions) && !Silent(decisions, k.phase)
  }

  ghost function OverObserved(plan: seq<PlanStep>, decisions: seq<Event>): set<Key> {
    set k | k in PlanKeys(plan) && multiset(DecisionKeys(decisions))[k] > multiset(PlanKeys(plan))[k]
  }

  ghost function NeverPlanned(plan: seq<PlanStep>, decisions: seq<Event>): set<Key> {
    set k | k in DecisionKeys(decisions) && k !in PlanKeys(plan)
  }

  lemma {:induction false} ImageSize<K(!new), V(!new)>(keys: set<K>, m: K -> V, image: set<V>)
    requires forall a, b :: a in keys && b in keys && m(a) == m(b) ==> a == b
    requires forall v :: v in image <==> exists k :: k in keys && m(k) == v
    ensures |image| == |keys|
  {
    if keys == {} {
      assert image == {};
    } else {
      var k :| k in keys;
      var v := m(k);
      assert k in keys && m(k) == v;
      assert v in image;
      ImageSize(keys - {k}, m, image - {m(k)});
      assert |image - {m(k)}| == |image| - 1;
    }
  }

  lemma {:induction false} SizeOfNoRepeats<T>(xs: seq<T>)
    requires NoRepeats(xs)
    ensures |set x | x in xs| == |xs|
  {
    if xs != [] {
      SizeOfNoRepeats(xs[1..]);
      assert xs == [xs[0]] + xs[1..];
      assert (set x | x in xs) == (set x | x in xs[1..]) + {xs[0]};
    }
  }

  /** For every plan and stream the report has one entry per silent phase, one per planned key
      outside the silent phases that no event decides, one per planned key decided more often than
      planned, and one per decided key that is not planned. */
  lemma ReportSize(run: Run, plan: seq<PlanStep>, decisions: seq<Event>, added: seq<Violation>)
    requires CoverageReport(run, plan, decisions, added)
    ensures |added| == |SilentPhases(plan, decisions)| + |Unobserved(plan, decisions)|
                       + |OverObserved(plan, decisions)| + |NeverPlanned(plan, decisions)|
  {
    SizeOfNoRepeats(added);
    var all := set v | v in added;
    forall v | v in all ensures IsCoverage(run, v) {}
    var a := set v | v in all && v.runFault.c.SilentPhase?;
    var b := set v | v in all && v.runFault.c.StepVanished?;
    var c := set v | v in all && v.runFault.c.DoubleCounted?;
    var d := set v | v in all && v.runFault.c.Unplanned?;
    FourParts(all, a, b, c, d);
    SilentEntries(run, plan, decisions, added, a);
    VanishedEntries(run, plan, decisions, added, b);
    DoubleEntries(run, plan, decisions, added, c);
    UnplannedEntries(run, plan, decisions, added, d);
  }

  lemma FourParts(all: set<Violation>, a: set<Violation>, b: set<Violation>, c: set<Violation>, d: set<Violation>)
    requires forall v :: v in all ==> v.OfRun? && v.runFault.Coverage?
    requires forall v :: v in a <==> v in all && v.runFault.c.SilentPhase?
    requires forall v :: v in b <==> v in all && v.runFault.c.StepVanished?
    requires forall v :: v in c <==> v in all && v.runFault.c.DoubleCounted?
    requires forall v :: v in d <==> v in all && v.runFault.c.Unplanned?
    ensures |all| == |a| + |b| + |c| + |d|
  {
    assert all == ((a + b) + c) + d;
    assert a !! b && (a + b) !! c && ((a + b) + c) !! d;
  }

  lemma SilentEntries(run: Run, plan: seq<PlanStep>, decisions: seq<Event>, added: seq<Violation>,
                      entries: set<Violation>)
    requires CoverageReport(run, plan, decisions, added)
    requires forall v :: v in entries <==> v in added && v.runFault.c.SilentPhase?
    ensures |entries| == |SilentPhases(plan, decisions)|
  {
    var m := (p: string) => OfRun(run, Coverage(SilentPhase(p, StepsInPhase(plan, p))));
    forall v ensures v in entries <==> exists p :: p in SilentPhases(plan, decisions) && m(p) == v {
      if v in entries { assert m(v.runFault.c.phase) == v; }
    }
    ImageSize(SilentPhases(plan, decisions), m, entries);
  }

  lemma VanishedEntries(run: Run, plan: seq<PlanStep>, decisions: seq<Event>, added: seq<Violation>,
                        entries: set<Violation>)
    requires CoverageReport(run, plan, decisions, added)
    requires forall v :: v in entries <==> v in added && v.runFault.c.StepVanished?
    ensures |entries| == |Unobserved(plan, decisions)|
  {
    var m := (k: Key) => OfRun(run, Coverage(StepVanished(k)));
    forall k ensures k in Unobserved(plan, decisions) <==> CoverageFinding(plan, decisions, StepVanished(k)) {
      Counted(plan, decisions, k);
    }
    forall v ensures v in entries <==> exists k :: k in Unobserved(plan, decisions) && m(k) == v {
      if v in entries { assert m(v.runFault.c.key) == v; }
    }
    ImageSize(Unobserved(plan, decisions), m, entries);
  }

  lemma DoubleEntries(run: Run, plan: seq<PlanStep>, decisions: seq<Event>, added: seq<Violation>,
                      entries: set<Violation>)
    requires CoverageReport(run, plan, decisions, added)
    requires forall v :: v in entries <==> v in added && v.runFault.c.DoubleCounted?
    ensures |entries| == |OverObserved(plan, decisions)|
  {
    var m := (k: Key) => OfRun(run, Coverage(DoubleCounted(k, IdsFor(decisions, k), |StepsFor(plan, k)|)));
    forall k ensures k in OverObserved(plan, decisions) <==>
        CoverageFinding(plan, decisions, DoubleCounted(k, IdsFor(decisions, k), |StepsFor(plan, k)|))
    {
      Counted(plan, decisions, k);
    }
    forall v ensures v in entries <==> exists k :: k in OverObserved(plan, decisions) && m(k) == v {
      if v in entries { assert m(v.runFault.c.key) == v; }
    }
    ImageSize(OverObserved(plan, decisions), m, entries);
  }

  lemma UnplannedEntries(run: Run, plan: seq<PlanStep>, decisions: seq<Event>, added: seq<Violation>,
                         entries: set<Violation>)
    requires CoverageReport(run, plan, decisions, added)
    requires forall v :: v in entries <==> v in added && v.runFault.c.Unplanned?
    ensures |entries| == |NeverPlanned(plan, decisions)|
  {
    var m := (k: Key) => OfRun(run, Coverage(Unplanned(k, IdsFor(decisions, k))));
    forall k ensures k in NeverPlanned(plan, decisions) <==>
        CoverageFinding(plan, decisions, Unplanned(k, IdsFor(decisions, k)))
    {
      Counted(plan, decisions, k);
    }
    forall v ensures v in entries <==> exists k :: k in NeverPlanned(plan, decisions) && m(k) == v {
      if v in entries { assert m(v.runFault.c.key) == v; }
    }
    ImageSize(NeverPlanned(plan, decisions), m, entries);
  }

  // ---------------------------------------------------------------- in terms of steps and events

  /** Silence in terms of steps and events: every step is decided, and every decision is of a step. */
  lemma SilentSteps(plan: seq<PlanStep>, decisions: seq<Event>)
    requires CoverageSilent(plan, decisions)
    ensures forall s :: s in plan ==> exists e :: e in decisions && Decides(e, s)
    ensures forall e :: e in decisions ==> exists s :: s in plan && Decides(e, s)
  {
    SilenceIsCoverage(plan, decisions);
    forall s | s in plan ensures exists e :: e in decisions && Decides(e, s) {
      var i :| 0 <= i < |plan| && plan[i] == s;
      assert PlanKeys(plan)[i] == PlanKey(s);
      assert PlanKey(s) in PlanKeys(plan);
      var j :| 0 <= j < |decisions| && DecisionKeys(decisions)[j] == PlanKey(s);
      KeysJoin(decisions[j], s);
      assert decisions[j] in decisions;
    }
    forall e | e in decisions ensures exists s :: s in plan && Decides(e, s) {
      var j :| 0 <= j < |decisions| && decisions[j] == e;
      assert DecisionKeys(decisions)[j] == KeyOf(e);
      assert KeyOf(e) in DecisionKeys(decisions);
      var i :| 0 <= i < |plan| && PlanKeys(plan)[i] == KeyOf(e);
      KeysJoin(e, plan[i]);
      assert plan[i] in plan;
    }
  }

  /** The keys of a plan are distinct exactly when no two steps agree in phase, step and subject. */
  lemma DistinctSteps(plan: seq<PlanStep>)
    ensures NoRepeats(PlanKeys(plan)) <==>
            forall i, j :: 0 <= i < j < |plan| ==>
              plan[i].phase != plan[j].phase || plan[i].step != plan[j].step || plan[i].subject != plan[j].subject
  {
    forall i, j | 0 <= i < j < |plan|
      ensures PlanKeys(plan)[i] == PlanKeys(plan)[j] <==>
              plan[i].phase == plan[j].phase && plan[i].step == plan[j].step && plan[i].subject == plan[j].subject
    {
      PlanKeysJoin(plan[i], plan[j]);
    }
  }
}
