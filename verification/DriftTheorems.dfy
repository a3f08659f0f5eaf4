/** What the silence of the drift check says about the ontology and the rendered plan. */
module DriftTheorems {
  import opened Text
  import opened Ontology
  import opened DriftCheck

  // ---------------------------------------------------------------- agreement

  ghost predicate Manufactured(steps: seq<Step>, resource: string) {
    exists s :: s in steps && s.task == "ash.gen.resource" && s.argv != [] && s.argv[0] == resource
  }

  function ExtendGroups(steps: seq<Step>, resource: string): seq<string> {
    ValuesAfter(ResourceArgv(steps, resource), "--extend")
  }

  function ActionGroups(steps: seq<Step>, resource: string): seq<string> {
    ValuesAfter(ResourceArgv(steps, resource), "--default-actions")
  }

  ghost predicate ResourcesAgree(o: Facts, steps: seq<Step>) {
    forall r :: r in o.resources <==> Manufactured(steps, r)
  }

  ghost predicate AttributesAgree(o: Facts, steps: seq<Step>) {
    forall r, v :: Fact(r, v) in o.attributes <==> v in ValuesAfter(ResourceArgv(steps, r), "--attribute")
  }

  ghost predicate RelationshipsAgree(o: Facts, steps: seq<Step>) {
    forall r, v :: Fact(r, v) in o.relationships <==> v in ValuesAfter(ResourceArgv(steps, r), "--relationship")
  }

  /** Extensions agree too, except that an extension with the empty name is not missed on a
      resource that is passed no `--extend` at all. */
  ghost predicate ExtensionsAgree(o: Facts, steps: seq<Step>) {
    forall r, v :: Fact(r, v) in o.extensions <==>
      || v in SplitEach(ExtendGroups(steps, r), ',')
      || (Fact(r, v) in o.extensions && v == "" && ExtendGroups(steps, r) == [])
  }

  /** The default actions agree, and where a csv holds the declared values each as often as they
      are declared, it holds them in sorted order. */
  ghost predicate ActionsAgree(o: Facts, steps: seq<Step>) {
    && (forall r, v :: Fact(r, v) in o.actions <==> v in SplitEach(ActionGroups(steps, r), ','))
    && (forall r :: KeepsOrder(SplitEach(ActionGroups(steps, r), ','), ActionsOf(o.actions, r)))
  }

  /** If the csv holds the values, each as often, it holds them in the order of their code points. */
  ghost predicate KeepsOrder(csv: seq<string>, values: seq<string>) {
    multiset(csv) == multiset(values) ==>
      forall i :: 0 <= i < |csv| - 1 ==> csv[i] == csv[i + 1] || Precedes(csv[i], csv[i + 1])
  }

  /** A step of this task takes this argument. */
  ghost predicate Invoked(steps: seq<Step>, task: string, arg: string) {
    exists s, i :: s in steps && s.task == task && 0 <= i < |s.argv| && s.argv[i] == arg
  }

  ghost predicate Allowed(o: Facts, task: string) {
    (task, true) in o.capabilities.Items
  }

  ghost predicate SupportsAgree(o: Facts, steps: seq<Step>) {
    forall s :: s in o.supports ==> (Allowed(o, "ash.gen." + s.kind) <==> Invoked(steps, "ash.gen." + s.kind, s.mod))
  }

  ghost predicate EnumsAgree(o: Facts, steps: seq<Step>) {
    && (forall s :: s in o.supports ==> (s.kind == "enum" <==> s.values != []))
    && (forall s :: s in o.supports && s.kind == "enum" && EnumCsv(steps, s.mod).Some? ==>
          CsvHolds(EnumCsv(steps, s.mod).value, s.values))
    && (forall m :: LastStep(steps, ENUM, m).Some? ==>
          EnumCsv(steps, m).Some? && EnumFacts(o.supports, m).Some? &&
          forall v :: v in EnumCsv(steps, m).value ==> v in EnumFacts(o.supports, m).value)
  }

  ghost predicate CsvHolds(csv: seq<string>, values: seq<string>) {
    (forall v :: v in values ==> v in csv) && KeepsOrder(csv, values)
  }

  ghost predicate Agreement(o: Facts, steps: seq<Step>) {
    && o.parseFailures == [] && steps != []
    && (forall d :: d in o.domains ==> Invoked(steps, "ash.gen.domain", d))
    && ResourcesAgree(o, steps) && AttributesAgree(o, steps) && RelationshipsAgree(o, steps)
    && ExtensionsAgree(o, steps) && ActionsAgree(o, steps) && SupportsAgree(o, steps) && EnumsAgree(o, steps)
    && (forall s :: s in steps ==> Allowed(o, s.task))
  }

  lemma MisplacedMeaning(csv: seq<string>, values: seq<string>)
    ensures Misplaced(csv, values) <==> !KeepsOrder(csv, values)
  {
    if multiset(csv) == multiset(values) {
      AscendingUnique(Sort(csv), Sort(values));
      SortedByNeighbours(csv);
    }
  }

  lemma PassesIsInvoked(steps: seq<Step>, task: string, arg: string)
    ensures Passes(steps, task, arg) <==> Invoked(steps, task, arg)
  {
    if s :| s in steps && s.task == task && arg in s.argv {
      var i :| 0 <= i < |s.argv| && s.argv[i] == arg;
      assert Invoked(steps, task, arg);
    }
    if s, i :| s in steps && s.task == task && 0 <= i < |s.argv| && s.argv[i] == arg { assert arg in s.argv; }
  }

  lemma AdmittedIsAllowed(o: Facts, task: string)
    ensures IsAdmitted(o, task) <==> Allowed(o, task)
  {
  }

  // ---------------------------------------------------------------- steps and dictionaries

  lemma {:induction false} LastStepIsAStep(steps: seq<Step>, task: string, key: string)
    ensures LastStep(steps, task, key).Some? <==>
            exists s :: s in steps && s.task == task && s.argv != [] && s.argv[0] == key
    ensures LastStep(steps, task, key).Some? ==> Step(task, LastStep(steps, task, key).value) in steps
  {
    if steps != [] {
      var last, rest := steps[|steps| - 1], steps[..|steps| - 1];
      LastStepIsAStep(rest, task, key);
      assert forall s :: s in steps <==> s in rest || s == last;
    }
  }

  lemma UnmanufacturedHasNoValues(steps: seq<Step>, r: string, flag: string)
    requires LastStep(steps, RESOURCE, r).None?
    ensures ValuesAfter(ResourceArgv(steps, r), flag) == []
  {
  }

  // ---------------------------------------------------------------- silence gives agreement

  lemma SilentResources(o: Facts, steps: seq<Step>)
    requires NoDrift(o, steps)
    ensures ResourcesAgree(o, steps)
  {
    forall r ensures r in o.resources <==> Manufactured(steps, r) {
      LastStepIsAStep(steps, RESOURCE, r);
      assert !Drifts(o, steps, ResourceMissing(r));
      assert !Drifts(o, steps, ResourceUndeclared(r));
    }
  }

  lemma SilentAttributes(o: Facts, steps: seq<Step>)
    requires NoDrift(o, steps)
    ensures AttributesAgree(o, steps)
  {
    forall r, v ensures Fact(r, v) in o.attributes <==> v in ValuesAfter(ResourceArgv(steps, r), "--attribute") {
      assert !Drifts(o, steps, AttributeMissing(Fact(r, v)));
      assert !Drifts(o, steps, AttributeUnbacked(r, v));
      if LastStep(steps, RESOURCE, r).None? { UnmanufacturedHasNoValues(steps, r, "--attribute"); }
    }
  }

  lemma SilentRelationships(o: Facts, steps: seq<Step>)
    requires NoDrift(o, steps)
    ensures RelationshipsAgree(o, steps)
  {
    forall r, v ensures Fact(r, v) in o.relationships <==> v in ValuesAfter(ResourceArgv(steps, r), "--relationship") {
      assert !Drifts(o, steps, RelationshipMissing(Fact(r, v)));
      assert !Drifts(o, steps, RelationshipUnbacked(r, v));
      if LastStep(steps, RESOURCE, r).None? { UnmanufacturedHasNoValues(steps, r, "--relationship"); }
    }
  }

  /** What direction 1 sees for a list of groups: the split values, or one empty value for none. */
  lemma JoinedGroups(groups: seq<string>, v: string)
    ensures v in Split(Join(",", groups), ',') <==> v in SplitEach(groups, ',') || (groups == [] && v == "")
  {
    if groups != [] { JoinThenSplitIsSplitEach(groups, ','); }
  }

  lemma SilentExtensions(o: Facts, steps: seq<Step>)
    requires NoDrift(o, steps)
    ensures ExtensionsAgree(o, steps)
  {
    forall r, v ensures Fact(r, v) in o.extensions <==>
        v in SplitEach(ExtendGroups(steps, r), ',') ||
        (Fact(r, v) in o.extensions && v == "" && ExtendGroups(steps, r) == [])
    {
      assert !Drifts(o, steps, ExtensionMissing(Fact(r, v)));
      assert !Drifts(o, steps, ExtensionUnbacked(r, v));
      JoinedGroups(ExtendGroups(steps, r), v);
      if LastStep(steps, RESOURCE, r).None? { UnmanufacturedHasNoValues(steps, r, "--extend"); }
    }
  }

  lemma QuietActions(o: Facts, steps: seq<Step>, f: Finding)
    requires NoDrift(o, steps)
    ensures !ActionDrift(o, steps, f)
  {
    assert !Drifts(o, steps, f);
  }

  lemma QuietEnums(o: Facts, steps: seq<Step>, f: Finding)
    requires NoDrift(o, steps)
    ensures !EnumDrift(o, steps, f)
  {
    assert !Drifts(o, steps, f);
  }

  lemma QuietSteps(o: Facts, steps: seq<Step>, f: Finding)
    requires NoDrift(o, steps)
    ensures !ResourceStepDrift(o, steps, f)
  {
    assert !Drifts(o, steps, f);
  }

  lemma DeclaredActionInvoked(o: Facts, steps: seq<Step>, r: string, v: string)
    requires NoDrift(o, steps) && v in ActionsOf(o.actions, r)
    ensures v in SplitEach(ActionGroups(steps, r), ',')
  {
    QuietActions(o, steps, ActionsAbsent(r));
    QuietActions(o, steps, ActionMissing(r, v));
    JoinedGroups(ActionGroups(steps, r), v);
  }

  lemma InvokedActionDeclared(o: Facts, steps: seq<Step>, r: string, v: string)
    requires NoDrift(o, steps) && v in SplitEach(ActionGroups(steps, r), ',')
    ensures v in ActionsOf(o.actions, r)
  {
    QuietSteps(o, steps, ActionUnbacked(r, v));
    if LastStep(steps, RESOURCE, r).None? { UnmanufacturedHasNoValues(steps, r, "--default-actions"); }
  }

  lemma SilentActionsOf(o: Facts, steps: seq<Step>, r: string, v: string)
    requires NoDrift(o, steps)
    ensures Fact(r, v) in o.actions <==> v in SplitEach(ActionGroups(steps, r), ',')
  {
    InActionsOf(o.actions, r, v);
    if v in ActionsOf(o.actions, r) { DeclaredActionInvoked(o, steps, r, v); }
    if v in SplitEach(ActionGroups(steps, r), ',') { InvokedActionDeclared(o, steps, r, v); }
  }

  lemma NothingMisplaced(csv: seq<string>, values: seq<string>)
    requires csv == [] || values == []
    ensures !Misplaced(csv, values)
  {
  }

  lemma SilentActionCsv(o: Facts, steps: seq<Step>, r: string, csv: seq<string>)
    requires NoDrift(o, steps) && ActionsOf(o.actions, r) != []
    requires ActionCsv(ResourceArgv(steps, r)) == Some(csv)
    ensures !Misplaced(csv, ActionsOf(o.actions, r))
  {
    QuietActions(o, steps, ActionOrder(r, csv, Sort(ActionsOf(o.actions, r))));
  }

  lemma SilentActionOrder(o: Facts, steps: seq<Step>, r: string)
    requires NoDrift(o, steps)
    ensures !Misplaced(SplitEach(ActionGroups(steps, r), ','), ActionsOf(o.actions, r))
  {
    var groups, values := ActionGroups(steps, r), ActionsOf(o.actions, r);
    var csv := SplitEach(groups, ',');
    if groups == [] || values == [] {
      NothingMisplaced(csv, values);
    } else {
      JoinThenSplitIsSplitEach(groups, ',');
      SilentActionCsv(o, steps, r, csv);
    }
  }

  lemma SilentActions(o: Facts, steps: seq<Step>)
    requires NoDrift(o, steps)
    ensures ActionsAgree(o, steps)
  {
    forall r, v ensures Fact(r, v) in o.actions <==> v in SplitEach(ActionGroups(steps, r), ',') {
      SilentActionsOf(o, steps, r, v);
    }
    forall r ensures KeepsOrder(SplitEach(ActionGroups(steps, r), ','), ActionsOf(o.actions, r)) {
      SilentActionOrder(o, steps, r);
      MisplacedMeaning(SplitEach(ActionGroups(steps, r), ','), ActionsOf(o.actions, r));
    }
  }

  lemma SupportNames(o: Facts, steps: seq<Step>, s: Support)
    ensures SupportTask(s) == "ash.gen." + s.kind
    ensures Passes(steps, SupportTask(s), s.mod) <==> Invoked(steps, "ash.gen." + s.kind, s.mod)
    ensures IsAdmitted(o, SupportTask(s)) <==> Allowed(o, "ash.gen." + s.kind)
  {
    PassesIsInvoked(steps, SupportTask(s), s.mod);
    AdmittedIsAllowed(o, SupportTask(s));
  }

  lemma SilentSupports(o: Facts, steps: seq<Step>)
    requires NoDrift(o, steps)
    ensures SupportsAgree(o, steps)
  {
    forall s | s in o.supports
      ensures Allowed(o, "ash.gen." + s.kind) <==> Invoked(steps, "ash.gen." + s.kind, s.mod)
    {
      assert !Drifts(o, steps, SupportMissing(s));
      assert !Drifts(o, steps, SupportForbidden(s));
      SupportNames(o, steps, s);
    }
  }

  lemma SilentEnumStep(o: Facts, steps: seq<Step>, m: string)
    requires NoDrift(o, steps) && LastStep(steps, ENUM, m).Some?
    ensures EnumCsv(steps, m).Some? && EnumFacts(o.supports, m).Some?
    ensures forall v :: v in EnumCsv(steps, m).value ==> v in EnumFacts(o.supports, m).value
  {
    assert !Drifts(o, steps, EnumCsvMissing(m));
    var csv := EnumCsv(steps, m).value;
    assert EnumFacts(o.supports, m).Some? by { assert !Drifts(o, steps, EnumValueUnbacked(m, csv[0])); }
    forall v | v in csv ensures v in EnumFacts(o.supports, m).value {
      assert !Drifts(o, steps, EnumValueUnbacked(m, v));
    }
  }

  lemma SilentEnum(o: Facts, steps: seq<Step>, s: Support)
    requires NoDrift(o, steps) && s in o.supports
    ensures s.kind == "enum" <==> s.values != []
    ensures s.kind == "enum" && EnumCsv(steps, s.mod).Some? ==> CsvHolds(EnumCsv(steps, s.mod).value, s.values)
  {
    assert !Drifts(o, steps, ValuesOnNonEnum(s));
    assert !Drifts(o, steps, EnumWithoutValues(s));
    if s.kind == "enum" && EnumCsv(steps, s.mod).Some? {
      SilentEnumCsv(o, steps, s, EnumCsv(steps, s.mod).value);
    }
  }

  lemma SilentEnumOrder(o: Facts, steps: seq<Step>, s: Support, csv: seq<string>)
    requires NoDrift(o, steps) && s in o.supports && s.kind == "enum" && s.values != []
    requires EnumCsv(steps, s.mod) == Some(csv)
    ensures !Misplaced(csv, s.values)
  {
    QuietEnums(o, steps, EnumOrder(s, csv, Sort(s.values)));
  }

  lemma SilentEnumCsv(o: Facts, steps: seq<Step>, s: Support, csv: seq<string>)
    requires NoDrift(o, steps) && s in o.supports && s.kind == "enum" && s.values != []
    requires EnumCsv(steps, s.mod) == Some(csv)
    ensures CsvHolds(csv, s.values)
  {
    SilentEnumOrder(o, steps, s, csv);
    MisplacedMeaning(csv, s.values);
    forall v | v in s.values ensures v in csv {
      QuietEnums(o, steps, EnumValueMissing(s, v));
    }
  }

  lemma SilentEnums(o: Facts, steps: seq<Step>)
    requires NoDrift(o, steps)
    ensures EnumsAgree(o, steps)
  {
    forall s | s in o.supports
      ensures s.kind == "enum" <==> s.values != []
      ensures s.kind == "enum" && EnumCsv(steps, s.mod).Some? ==> CsvHolds(EnumCsv(steps, s.mod).value, s.values)
    {
      SilentEnum(o, steps, s);
    }
    forall m | LastStep(steps, ENUM, m).Some?
      ensures EnumCsv(steps, m).Some? && EnumFacts(o.supports, m).Some?
      ensures forall v :: v in EnumCsv(steps, m).value ==> v in EnumFacts(o.supports, m).value
    {
      SilentEnumStep(o, steps, m);
    }
  }

  lemma SilentRest(o: Facts, steps: seq<Step>)
    requires NoDrift(o, steps)
    ensures o.parseFailures == [] && steps != []
    ensures forall d :: d in o.domains ==> Invoked(steps, "ash.gen.domain", d)
    ensures forall s :: s in steps ==> Allowed(o, s.task)
  {
    assert !Drifts(o, steps, NoSteps);
    forall m ensures m !in o.parseFailures { assert !Drifts(o, steps, ParseFailure(m)); }
    EmptyOrInhabited(o.parseFailures);
    forall d | d in o.domains ensures Invoked(steps, "ash.gen.domain", d) {
      assert !Drifts(o, steps, DomainMissing(d));
      PassesIsInvoked(steps, DOMAIN, d);
    }
    forall s | s in steps ensures Allowed(o, s.task) {
      assert !Drifts(o, steps, TaskUndeclared(s.task));
      assert !Drifts(o, steps, TaskForbidden(s.task));
    }
  }

  lemma SilenceGivesAgreement(o: Facts, steps: seq<Step>)
    requires NoDrift(o, steps)
    ensures Agreement(o, steps)
  {
    SilentResources(o, steps);
    SilentAttributes(o, steps);
    SilentRelationships(o, steps);
    SilentExtensions(o, steps);
    SilentActions(o, steps);
    SilentSupports(o, steps);
    SilentEnums(o, steps);
    SilentRest(o, steps);
  }

  // ---------------------------------------------------------------- agreement gives silence

  lemma AgreementSilencesFacts(o: Facts, steps: seq<Step>, f: Finding)
    requires Agreement(o, steps)
    ensures !FactDrift(o, steps, f)
  {
    match f
    case DomainMissing(d) => PassesIsInvoked(steps, DOMAIN, d);
    case ResourceMissing(r) => LastStepIsAStep(steps, RESOURCE, r);
    case AttributeMissing(a) => assert a == Fact(a.resource, a.value);
    case RelationshipMissing(a) => assert a == Fact(a.resource, a.value);
    case ExtensionMissing(e) => AgreementSilencesExtension(o, steps, e);
    case _ =>
  }

  lemma AgreementSilencesExtension(o: Facts, steps: seq<Step>, e: Fact)
    requires ExtensionsAgree(o, steps)
    ensures !FactDrift(o, steps, ExtensionMissing(e))
  {
    assert e == Fact(e.resource, e.value);
    JoinedGroups(ExtendGroups(steps, e.resource), e.value);
  }

  lemma AgreementSilencesRest(o: Facts, steps: seq<Step>, f: Finding)
    requires Agreement(o, steps)
    ensures !PreambleDrift(o, steps, f) && !SupportDrift(o, steps, f) && !TaskDrift(o, steps, f)
  {
    if f.SupportMissing? || f.SupportForbidden? { SupportNames(o, steps, f.support); }
  }

  lemma AgreementSilencesActions(o: Facts, steps: seq<Step>, f: Finding)
    requires ActionsAgree(o, steps)
    ensures !ActionDrift(o, steps, f)
  {
    if f.ActionsAbsent? || f.ActionMissing? || f.ActionOrder? {
      var r := f.resource;
      var groups, values := ActionGroups(steps, r), ActionsOf(o.actions, r);
      if values != [] {
        InActionsOf(o.actions, r, values[0]);
        assert groups != [];
        JoinThenSplitIsSplitEach(groups, ',');
        if f.ActionMissing? { InActionsOf(o.actions, r, f.value); }
        if f.ActionOrder? { MisplacedMeaning(SplitEach(groups, ','), values); }
      }
    }
  }

  lemma AgreementSilencesSteps(o: Facts, steps: seq<Step>, f: Finding)
    requires Agreement(o, steps)
    ensures !ResourceStepDrift(o, steps, f)
  {
    match f
    case ResourceUndeclared(r) => LastStepIsAStep(steps, RESOURCE, r);
    case ActionUnbacked(r, v) => InActionsOf(o.actions, r, v);
    case _ =>
  }

  lemma AgreementSilencesEnums(o: Facts, steps: seq<Step>, f: Finding)
    requires EnumsAgree(o, steps)
    ensures !EnumDrift(o, steps, f) && !EnumStepDrift(o, steps, f)
  {
    if f.EnumOrder? && EnumCsv(steps, f.support.mod).Some? {
      MisplacedMeaning(EnumCsv(steps, f.support.mod).value, f.support.values);
    }
  }

  /** The check is silent exactly when ontology and plan agree. */
  lemma SilenceIsAgreement(o: Facts, steps: seq<Step>)
    ensures NoDrift(o, steps) <==> Agreement(o, steps)
  {
    if NoDrift(o, steps) { SilenceGivesAgreement(o, steps); }
    if Agreement(o, steps) {
      forall f ensures !Drifts(o, steps, f) {
        AgreementSilencesFacts(o, steps, f);
        AgreementSilencesRest(o, steps, f);
        AgreementSilencesActions(o, steps, f);
        AgreementSilencesSteps(o, steps, f);
        AgreementSilencesEnums(o, steps, f);
      }
    }
  }

  // ---------------------------------------------------------------- every step, not only the last

  ghost predicate DistinctSteps(steps: seq<Step>, task: string) {
    forall i, j ::
      (0 <= i < j < |steps| && steps[i].task == steps[j].task == task && steps[i].argv != [] && steps[j].argv != []) ==>
      steps[i].argv[0] != steps[j].argv[0]
  }

  /** With distinct first arguments every step is the last of its name, so none is overlooked. */
  lemma {:induction false} DistinctStepIsLast(steps: seq<Step>, i: nat)
    requires i < |steps| && steps[i].argv != [] && DistinctSteps(steps, steps[i].task)
    ensures LastStep(steps, steps[i].task, steps[i].argv[0]) == Some(steps[i].argv)
  {
    var n := |steps| - 1;
    if i < n {
      assert steps[..n][i] == steps[i];
      DistinctStepIsLast(steps[..n], i);
    }
  }

  /** An argv that carries exactly what the ontology declares of the resource it names. */
  ghost predicate CarriesFacts(o: Facts, argv: seq<string>)
    requires argv != []
  {
    && argv[0] in o.resources
    && (forall v :: v in ValuesAfter(argv, "--attribute") <==> Fact(argv[0], v) in o.attributes)
    && (forall v :: v in ValuesAfter(argv, "--relationship") <==> Fact(argv[0], v) in o.relationships)
    && (forall v :: v in SplitEach(ValuesAfter(argv, "--extend"), ',') <==> Fact(argv[0], v) in o.extensions)
    && (forall v :: v in SplitEach(ValuesAfter(argv, "--default-actions"), ',') <==> Fact(argv[0], v) in o.actions)
  }

  ghost predicate SameMembersIn(xs: seq<string>, ys: seq<string>) {
    forall v :: v in xs <==> v in ys
  }

  /** Two argvs that pass the same attributes, relationships, extensions and default actions. */
  ghost predicate SameValues(a: seq<string>, b: seq<string>) {
    && SameMembersIn(ValuesAfter(a, "--attribute"), ValuesAfter(b, "--attribute"))
    && SameMembersIn(ValuesAfter(a, "--relationship"), ValuesAfter(b, "--relationship"))
    && SameMembersIn(SplitEach(ValuesAfter(a, "--extend"), ','), SplitEach(ValuesAfter(b, "--extend"), ','))
    && SameMembersIn(SplitEach(ValuesAfter(a, "--default-actions"), ','),
                     SplitEach(ValuesAfter(b, "--default-actions"), ','))
  }

  /** The empty extension name is declared and the resource is passed no `--extend`. */
  ghost predicate EmptyNameMissed(o: Facts, steps: seq<Step>, r: string) {
    Fact(r, "") in o.extensions && ExtendGroups(steps, r) == []
  }

  ghost predicate IsStepOf(steps: seq<Step>, task: string, s: Step) {
    s in steps && s.task == task && s.argv != []
  }

  lemma LastStepCarriesFacts(o: Facts, steps: seq<Step>, r: string)
    requires NoDrift(o, steps) && LastStep(steps, RESOURCE, r).Some?
    ensures ResourceArgv(steps, r) != [] && ResourceArgv(steps, r)[0] == r
    ensures CarriesFacts(o, ResourceArgv(steps, r)) <==> !EmptyNameMissed(o, steps, r)
  {
    LastStepNamesIt(steps, RESOURCE, r);
    SilentResources(o, steps);
    LastStepIsAStep(steps, RESOURCE, r);
    SilentAttributes(o, steps);
    SilentRelationships(o, steps);
    SilentActions(o, steps);
    ExtensionsExact(o, steps, r);
  }

  lemma {:induction false} LastStepNamesIt(steps: seq<Step>, task: string, key: string)
    requires LastStep(steps, task, key).Some?
    ensures LastStep(steps, task, key).value != [] && LastStep(steps, task, key).value[0] == key
  {
    var last := steps[|steps| - 1];
    if !(last.task == task && last.argv != [] && last.argv[0] == key) {
      LastStepNamesIt(steps[..|steps| - 1], task, key);
    }
  }

  lemma SameAsTheLast(o: Facts, a: seq<string>, b: seq<string>)
    requires a != [] && b != [] && a[0] == b[0] && CarriesFacts(o, b)
    ensures CarriesFacts(o, a) <==> SameValues(a, b)
  {
  }

  /** Under silence every resource step carries exactly the facts of its resource if and only if
      it passes what the last step of its name passes, and no manufactured resource declares the
      empty extension name while being passed no `--extend`. */
  lemma EveryResourceStepAgrees(o: Facts, steps: seq<Step>)
    requires NoDrift(o, steps)
    ensures (forall s :: IsStepOf(steps, RESOURCE, s) ==> CarriesFacts(o, s.argv)) <==>
            forall s :: IsStepOf(steps, RESOURCE, s) ==>
              SameValues(s.argv, ResourceArgv(steps, s.argv[0])) && !EmptyNameMissed(o, steps, s.argv[0])
  {
    forall s | IsStepOf(steps, RESOURCE, s)
      ensures var last := Step(RESOURCE, ResourceArgv(steps, s.argv[0]));
              && IsStepOf(steps, RESOURCE, last) && last.argv[0] == s.argv[0]
              && (CarriesFacts(o, last.argv) <==> !EmptyNameMissed(o, steps, s.argv[0]))
              && (CarriesFacts(o, last.argv) ==>
                   (CarriesFacts(o, s.argv) <==> SameValues(s.argv, last.argv)))
    {
      var r := s.argv[0];
      LastStepIsAStep(steps, RESOURCE, r);
      LastStepCarriesFacts(o, steps, r);
      if CarriesFacts(o, ResourceArgv(steps, r)) { SameAsTheLast(o, s.argv, ResourceArgv(steps, r)); }
    }
  }

  function ActionsPassed(argv: seq<string>): seq<string> { SplitEach(ValuesAfter(argv, "--default-actions"), ',') }

  /** Position, of every resource step: with actions declared once each, all their action csvs are
      in sorted order if and only if each is the csv of the last step of its name and repeats
      nothing. */
  lemma EveryActionCsvSorted(o: Facts, steps: seq<Step>)
    requires NoDrift(o, steps) && forall r :: NoRepeats(ActionsOf(o.actions, r))
    ensures (forall s :: IsStepOf(steps, RESOURCE, s) ==>
              ActionsPassed(s.argv) == Sort(ActionsOf(o.actions, s.argv[0]))) <==>
            forall s :: IsStepOf(steps, RESOURCE, s) ==>
              ActionsPassed(s.argv) == ActionsPassed(ResourceArgv(steps, s.argv[0])) && NoRepeats(ActionsPassed(s.argv))
  {
    forall s | IsStepOf(steps, RESOURCE, s)
      ensures var last := Step(RESOURCE, ResourceArgv(steps, s.argv[0]));
              && IsStepOf(steps, RESOURCE, last) && last.argv[0] == s.argv[0]
              && (ActionsPassed(last.argv) == Sort(ActionsOf(o.actions, s.argv[0])) <==>
                   NoRepeats(ActionsPassed(last.argv)))
    {
      LastStepIsAStep(steps, RESOURCE, s.argv[0]);
      LastStepNamesIt(steps, RESOURCE, s.argv[0]);
      ActionPosition(o, steps, s.argv[0]);
    }
  }

  /** An enum step that carries exactly the values the ontology declares of its enum. */
  ghost predicate CarriesValues(o: Facts, argv: seq<string>)
    requires argv != []
  {
    && EnumValues(argv).Some? && EnumFacts(o.supports, argv[0]).Some?
    && SameMembersIn(EnumValues(argv).value, EnumFacts(o.supports, argv[0]).value)
  }

  lemma {:induction false} EnumFactsAreASupport(supports: seq<Support>, m: string)
    requires EnumFacts(supports, m).Some?
    ensures Support(m, "enum", EnumFacts(supports, m).value) in supports
  {
    var last := supports[|supports| - 1];
    if last.kind == "enum" && last.mod == m {
      assert last == Support(m, "enum", last.values);
    } else {
      EnumFactsAreASupport(supports[..|supports| - 1], m);
    }
  }

  lemma LastStepCarriesValues(o: Facts, steps: seq<Step>, m: string)
    requires NoDrift(o, steps) && LastStep(steps, ENUM, m).Some?
    ensures EnumCsv(steps, m).Some? && EnumFacts(o.supports, m).Some?
    ensures SameMembersIn(EnumCsv(steps, m).value, EnumFacts(o.supports, m).value)
  {
    SilentEnumStep(o, steps, m);
    EnumFactsAreASupport(o.supports, m);
    SilentEnum(o, steps, Support(m, "enum", EnumFacts(o.supports, m).value));
  }

  /** The same for enum steps: under silence each carries exactly the values declared of its enum
      if and only if it has a csv with the values of the last step's csv. */
  lemma EveryEnumStepAgrees(o: Facts, steps: seq<Step>)
    requires NoDrift(o, steps)
    ensures (forall s :: IsStepOf(steps, ENUM, s) ==> CarriesValues(o, s.argv)) <==>
            forall s :: IsStepOf(steps, ENUM, s) ==>
              && EnumValues(s.argv).Some? && EnumCsv(steps, s.argv[0]).Some?
              && SameMembersIn(EnumValues(s.argv).value, EnumCsv(steps, s.argv[0]).value)
  {
    forall s | IsStepOf(steps, ENUM, s)
      ensures EnumCsv(steps, s.argv[0]).Some? && EnumFacts(o.supports, s.argv[0]).Some?
      ensures SameMembersIn(EnumCsv(steps, s.argv[0]).value, EnumFacts(o.supports, s.argv[0]).value)
    {
      LastStepIsAStep(steps, ENUM, s.argv[0]);
      LastStepCarriesValues(o, steps, s.argv[0]);
    }
  }

  /** And in sorted order, with the values of every enum declared once. */
  lemma EveryEnumCsvSorted(o: Facts, steps: seq<Step>)
    requires NoDrift(o, steps) && forall m :: NoRepeats(Or(EnumFacts(o.supports, m), []))
    ensures (forall s :: IsStepOf(steps, ENUM, s) ==>
              EnumValues(s.argv) == Some(Sort(Or(EnumFacts(o.supports, s.argv[0]), [])))) <==>
            forall s :: IsStepOf(steps, ENUM, s) ==>
              EnumValues(s.argv) == EnumCsv(steps, s.argv[0]) && NoRepeats(Or(EnumValues(s.argv), []))
  {
    forall s | IsStepOf(steps, ENUM, s)
      ensures var last := Step(ENUM, Or(LastStep(steps, ENUM, s.argv[0]), []));
              && IsStepOf(steps, ENUM, last) && last.argv[0] == s.argv[0]
              && EnumValues(last.argv) == EnumCsv(steps, s.argv[0])
              && EnumCsv(steps, s.argv[0]).Some?
              && (EnumCsv(steps, s.argv[0]) == Some(Sort(Or(EnumFacts(o.supports, s.argv[0]), []))) <==>
                   NoRepeats(EnumCsv(steps, s.argv[0]).value))
    {
      var m := s.argv[0];
      LastStepIsAStep(steps, ENUM, m);
      LastStepNamesIt(steps, ENUM, m);
      LastStepCarriesValues(o, steps, m);
      EnumFactsAreASupport(o.supports, m);
      EnumPosition(o, steps, Support(m, "enum", EnumFacts(o.supports, m).value));
    }
  }

  lemma OneEnumSupported(o: Facts, steps: seq<Step>, m: string, v: string)
    requires o.supports == [Support(m, "enum", [v])] && o.capabilities == map[ENUM := true]
    requires Step(ENUM, [m, v]) in steps
    ensures SupportsAgree(o, steps) && Allowed(o, ENUM)
  {
    var step := Step(ENUM, [m, v]);
    assert step.argv[0] == m && Invoked(steps, ENUM, m);
    assert "ash.gen." + "enum" == ENUM && ENUM in o.capabilities && (ENUM, true) in o.capabilities.Items;
  }

  /** One enum, declared with one value and invoked last with just that value. */
  lemma OneEnumAgrees(o: Facts, steps: seq<Step>, m: string, v: string)
    requires o == Facts([], [], [], [], [], [Support(m, "enum", [v])], [], map[ENUM := true], [])
    requires ',' !in v && !StartsWith(v, "--") && Step(ENUM, [m, v]) in steps
    requires forall s :: s in steps ==> s.task == ENUM
    requires forall x :: LastStep(steps, ENUM, x) == if x == m then Some([m, v]) else None
    ensures NoDrift(o, steps)
  {
    SplitWithoutSeparator(v, ',');
    assert o.supports[..0] == [];
    forall r ensures LastStep(steps, RESOURCE, r).None? { LastStepIsAStep(steps, RESOURCE, r); }
    assert EnumCsv(steps, m) == Some([v]) && EnumFacts(o.supports, m) == Some([v]);
    OneEnumSupported(o, steps, m, v);
    assert Sort([v]) == [v];
    assert EnumsAgree(o, steps);
    SilenceIsAgreement(o, steps);
  }

  /** An earlier step of an enum can pass a value that no fact stands behind. */
  lemma RepeatedEnumStepEscapes()
    ensures var o := Facts([], [], [], [], [], [Support("Status", "enum", ["out"])], [], map[ENUM := true], []);
            var steps := [Step(ENUM, ["Status", "lost"]), Step(ENUM, ["Status", "out"])];
            NoDrift(o, steps) && !CarriesValues(o, steps[0].argv)
  {
    var o := Facts([], [], [], [], [], [Support("Status", "enum", ["out"])], [], map[ENUM := true], []);
    var steps := [Step(ENUM, ["Status", "lost"]), Step(ENUM, ["Status", "out"])];
    forall x ensures LastStep(steps, ENUM, x) == if x == "Status" then Some(steps[1].argv) else None {
      LastStepIsAStep(steps, ENUM, x);
    }
    assert !StartsWith("out", "--") by { assert "out"[..2][0] == 'o'; }
    OneEnumAgrees(o, steps, "Status", "out");
    SplitWithoutSeparator("lost", ',');
    assert o.supports[..0] == [];
    assert "lost" in Split("lost", ',') && "lost" !in ["out"];
  }

  /** Where no resource step passes anything and nothing is declared but resources. */
  lemma NothingPassed(o: Facts, steps: seq<Step>)
    requires o.attributes == [] && o.relationships == [] && o.actions == [] && o.supports == []
    requires forall r :: |ResourceArgv(steps, r)| < 2
    requires forall m :: LastStep(steps, ENUM, m).None?
    requires forall e :: e in o.extensions ==> e.value == ""
    ensures AttributesAgree(o, steps) && RelationshipsAgree(o, steps) && ExtensionsAgree(o, steps)
    ensures ActionsAgree(o, steps) && SupportsAgree(o, steps) && EnumsAgree(o, steps)
  {
  }

  /** Without distinctness an earlier step can pass an attribute no fact stands behind. */
  lemma RepeatedStepEscapes()
    ensures var o := Facts([], ["Book"], [], [], [], [], [], map[RESOURCE := true], []);
            var steps := [Step(RESOURCE, ["Book", "--attribute", "isbn:string"]), Step(RESOURCE, ["Book"])];
            && NoDrift(o, steps)
            && "isbn:string" in ValuesAfter(steps[0].argv, "--attribute") && o.attributes == []
  {
    var o := Facts([], ["Book"], [], [], [], [], [], map[RESOURCE := true], []);
    var first, last := Step(RESOURCE, ["Book", "--attribute", "isbn:string"]), Step(RESOURCE, ["Book"]);
    var steps := [first, last];
    InValuesAfter(first.argv, "--attribute", "isbn:string");
    assert first.argv[1] == "--attribute" && first.argv[1 + 1] == "isbn:string";
    assert steps[..1] == [first];
    forall r ensures ResourceArgv(steps, r) == if r == "Book" then last.argv else [] {
      LastStepIsAStep(steps, RESOURCE, r);
    }
    forall m ensures LastStep(steps, ENUM, m).None? { LastStepIsAStep(steps, ENUM, m); }
    forall r ensures Manufactured(steps, r) <==> r == "Book" {
      if r == "Book" { assert last in steps; }
    }
    NothingPassed(o, steps);
    SilenceIsAgreement(o, steps);
  }

  // ---------------------------------------------------------------- the empty extension name

  /** Under silence the extension values of a resource are exactly its declared extensions if and
      only if it does not declare the empty name while being passed no `--extend`. */
  lemma ExtensionsExact(o: Facts, steps: seq<Step>, r: string)
    requires NoDrift(o, steps)
    ensures (forall v :: v in SplitEach(ExtendGroups(steps, r), ',') <==> Fact(r, v) in o.extensions)
            <==> !(Fact(r, "") in o.extensions && ExtendGroups(steps, r) == [])
  {
    SilentExtensions(o, steps);
    if Fact(r, "") in o.extensions && ExtendGroups(steps, r) == [] {
      assert "" !in SplitEach(ExtendGroups(steps, r), ',');
    }
  }

  /** Such a silence exists, and even for an extension whose resource does not resolve. */
  lemma EmptyExtensionEscapes()
    ensures var o := Facts([], [], [], [], [Fact(UNRESOLVED, "")], [], [], map["ash.install" := true], []);
            NoDrift(o, [Step("ash.install", [])]) && UNRESOLVED !in o.resources
  {
    var o := Facts([], [], [], [], [Fact(UNRESOLVED, "")], [], [], map["ash.install" := true], []);
    var steps := [Step("ash.install", [])];
    forall task, key ensures LastStep(steps, task, key).None? { LastStepIsAStep(steps, task, key); }
    forall r ensures !Manufactured(steps, r) {}
    NothingPassed(o, steps);
    SilenceIsAgreement(o, steps);
  }

  // ---------------------------------------------------------------- position

  /** A csv that holds the declared values in both directions and is not misplaced: when no value
      is declared twice, it is the sorted list exactly when it repeats nothing. */
  lemma SortedIffNoRepeats(csv: seq<string>, values: seq<string>)
    requires NoRepeats(values) && KeepsOrder(csv, values)
    requires forall v :: v in csv <==> v in values
    ensures csv == Sort(values) <==> NoRepeats(csv)
    ensures StrictlyAscending(csv) <==> NoRepeats(csv)
  {
    MisplacedMeaning(csv, values);
    AscendingByNeighbours(csv);
    if NoRepeats(csv) { SameMembersNoRepeats(csv, values); }
    if csv == Sort(values) { RearrangedNoRepeats(csv, values); }
  }

  /** Silence puts the default actions of every resource in sorted order unless a csv value is
      repeated. */
  lemma ActionPosition(o: Facts, steps: seq<Step>, r: string)
    requires NoDrift(o, steps) && NoRepeats(ActionsOf(o.actions, r))
    ensures var csv := SplitEach(ActionGroups(steps, r), ',');
            && (csv == Sort(ActionsOf(o.actions, r)) <==> NoRepeats(csv))
            && (StrictlyAscending(csv) <==> NoRepeats(csv))
            && (ActionsOf(o.actions, r) != [] ==> Split(Join(",", ActionGroups(steps, r)), ',') == csv)
  {
    var groups, values := ActionGroups(steps, r), ActionsOf(o.actions, r);
    SilentActions(o, steps);
    forall v ensures v in SplitEach(groups, ',') <==> v in values { InActionsOf(o.actions, r, v); }
    SortedIffNoRepeats(SplitEach(groups, ','), values);
    if values != [] {
      InActionsOf(o.actions, r, values[0]);
      JoinThenSplitIsSplitEach(groups, ',');
    }
  }

  lemma FirstLetters(a: string, b: string)
    requires a != "" && b != "" && a[0] < b[0]
    ensures Precedes(a, b) && !Precedes(b, a) && a != b
  {
    assert a[..0] == b[..0];
    NotBothWays(a, b);
  }

  lemma FourInOrder(a: string, b: string, c: string, d: string, values: seq<string>)
    requires Precedes(a, b) && Precedes(b, c) && Precedes(c, d)
    ensures !Misplaced([a, b, c, d], values)
  {
    MisplacedMeaning([a, b, c, d], values);
  }

  lemma LastOutOfOrder(a: string, b: string, c: string, d: string)
    requires c != d && !Precedes(c, d)
    ensures Misplaced([a, b, c, d], [a, b, c, d])
  {
    var csv := [a, b, c, d];
    assert csv[2] == c && csv[2 + 1] == d;
    MisplacedMeaning(csv, csv);
  }

  /** The csv that the Book resource is manufactured with, and the order its actions are declared in. */
  lemma BookActionsInOrder()
    ensures !Misplaced(["create", "destroy", "read", "update"], ["create", "read", "update", "destroy"])
    ensures Misplaced(["create", "read", "update", "destroy"], ["create", "read", "update", "destroy"])
  {
    FirstLetters("create", "destroy");
    FirstLetters("destroy", "read");
    FirstLetters("read", "update");
    FourInOrder("create", "destroy", "read", "update", ["create", "read", "update", "destroy"]);
    FirstLetters("destroy", "update");
    LastOutOfOrder("create", "read", "update", "destroy");
  }

  lemma NotBothWays(a: string, b: string)
    requires Precedes(a, b)
    ensures a != b && !Precedes(b, a)
  {
    PrecedesIsStrict(a, b);
    if Precedes(b, a) {
      PrecedesIsStrict(b, a);
      LessEqAntisymmetric(a, b);
    }
  }

  /** The same for the values csv of a declared enum that has a step; of several declarations of
      one module the last counts. */
  lemma EnumPosition(o: Facts, steps: seq<Step>, s: Support)
    requires NoDrift(o, steps) && s in o.supports && s.kind == "enum"
    requires EnumFacts(o.supports, s.mod) == Some(s.values) && LastStep(steps, ENUM, s.mod).Some?
    requires NoRepeats(s.values)
    ensures EnumCsv(steps, s.mod).Some?
    ensures EnumCsv(steps, s.mod).value == Sort(s.values) <==> NoRepeats(EnumCsv(steps, s.mod).value)
    ensures StrictlyAscending(EnumCsv(steps, s.mod).value) <==> NoRepeats(EnumCsv(steps, s.mod).value)
  {
    SilentEnumStep(o, steps, s.mod);
    SilentEnum(o, steps, s);
    SortedIffNoRepeats(EnumCsv(steps, s.mod).value, s.values);
  }

  // ---------------------------------------------------------------- back to the blocks

  lemma {:induction false} ResolvedToABlock(resources: seq<ResourceBlock>, subject: Option<string>)
    requires ModuleOf(resources, subject) != UNRESOLVED
    ensures subject.Some? && exists b :: b in resources && b.subject == subject.value
  {
    if resources != [] {
      var n := |resources| - 1;
      if subject != Some(resources[n].subject) { ResolvedToABlock(resources[..n], subject); }
      else { assert resources[n] in resources; }
    }
  }

  /** The owner is a resource block of the ontology. */
  ghost predicate Resolves(g: Graph, owner: Option<string>) {
    exists b :: b in g.resources && owner == Some(b.subject)
  }

  /** A step manufactures the owner's module; if the owner is no resource block, it is because some
      resource block gives its module the very name that stands for an unresolved owner. */
  ghost predicate Owned(g: Graph, o: Facts, steps: seq<Step>, owner: Option<string>) {
    && Manufactured(steps, ModuleOf(g.resources, owner))
    && (Resolves(g, owner) || UNRESOLVED in o.resources)
  }

  lemma ValuesMakeItManufactured(steps: seq<Step>, f: Fact, flag: string)
    requires f.value in ValuesAfter(ResourceArgv(steps, f.resource), flag)
    ensures Manufactured(steps, f.resource)
  {
    LastStepIsAStep(steps, RESOURCE, f.resource);
  }

  /** The facts of a projection are those of its blocks, no more and no fewer. */
  lemma FactsAreBlocks(g: Graph, o: Facts, f: Fact)
    requires IsProjection(g, o)
    ensures f in o.attributes <==> exists b :: b in g.attributes && AttributeFact(g.resources, b) == f
    ensures f in o.relationships <==> exists b :: b in g.relationships && RelationshipFact(g.resources, b) == f
    ensures f in o.extensions <==> exists b :: b in g.extensions && ExtensionFact(g.resources, b) == f
  {
  }

  /** Under silence every attribute, relationship and nonempty extension block belongs to a
      resource block of the ontology that some step manufactures, unless a declared module bears
      the name of the unresolved. */
  lemma OwnersResolve(g: Graph, o: Facts, steps: seq<Step>)
    requires IsProjection(g, o) && NoDrift(o, steps)
    ensures forall b :: b in g.attributes ==> Owned(g, o, steps, b.owner)
    ensures forall b :: b in g.relationships ==> Owned(g, o, steps, b.owner)
    ensures forall b :: b in g.extensions && b.name != Some("") ==> Owned(g, o, steps, b.owner)
  {
    forall b | b in g.attributes ensures Owned(g, o, steps, b.owner) {
      var f := AttributeFact(g.resources, b);
      FactsAreBlocks(g, o, f);
      OwnedFact(g, o, steps, f, b.owner);
    }
    forall b | b in g.relationships ensures Owned(g, o, steps, b.owner) {
      var f := RelationshipFact(g.resources, b);
      FactsAreBlocks(g, o, f);
      OwnedFact(g, o, steps, f, b.owner);
    }
    forall b | b in g.extensions && b.name != Some("") ensures Owned(g, o, steps, b.owner) {
      var f := ExtensionFact(g.resources, b);
      FactsAreBlocks(g, o, f);
      OwnedFact(g, o, steps, f, b.owner);
    }
  }

  lemma OwnedFact(g: Graph, o: Facts, steps: seq<Step>, f: Fact, owner: Option<string>)
    requires NoDrift(o, steps)
    requires f in o.attributes || f in o.relationships || (f in o.extensions && f.value != "")
    requires f.resource == ModuleOf(g.resources, owner)
    ensures Owned(g, o, steps, owner)
  {
    assert f == Fact(f.resource, f.value);
    SilentAttributes(o, steps);
    SilentRelationships(o, steps);
    SilentExtensions(o, steps);
    SilentResources(o, steps);
    if f in o.attributes { ValuesMakeItManufactured(steps, f, "--attribute"); }
    else if f in o.relationships { ValuesMakeItManufactured(steps, f, "--relationship"); }
    else { LastStepIsAStep(steps, RESOURCE, f.resource); }
    if ModuleOf(g.resources, owner) != UNRESOLVED {
      ResolvedToABlock(g.resources, owner);
      assert owner == Some(owner.value);
    }
  }

  /** Under silence, and with colon-free names and types, reading back the `--attribute` values of
      a resource's step gives exactly the attributes the ontology blocks describe for it. */
  lemma AttributesReadBack(g: Graph, o: Facts, steps: seq<Step>, r: string, a: Attribute)
    requires IsProjection(g, o) && NoDrift(o, steps)
    requires forall b :: b in g.attributes ==> ':' !in AttributeOf(b).name && ':' !in AttributeOf(b).ty
    ensures (exists v :: v in ValuesAfter(ResourceArgv(steps, r), "--attribute") && DecodeAttribute(v) == Some(a))
            <==> exists b :: b in g.attributes && ModuleOf(g.resources, b.owner) == r && AttributeOf(b) == a
  {
    SilentAttributes(o, steps);
    if v :| v in ValuesAfter(ResourceArgv(steps, r), "--attribute") && DecodeAttribute(v) == Some(a) {
      FactsAreBlocks(g, o, Fact(r, v));
      var b :| b in g.attributes && AttributeFact(g.resources, b) == Fact(r, v);
      AttributeFlagFaithful(AttributeOf(b));
    }
    if b :| b in g.attributes && ModuleOf(g.resources, b.owner) == r && AttributeOf(b) == a {
      FactsAreBlocks(g, o, AttributeFact(g.resources, b));
      AttributeFlagFaithful(a);
      assert AttributeFlag(a) in ValuesAfter(ResourceArgv(steps, r), "--attribute");
    }
  }

  /** The same for relationships, which read back with `required` only where it is meant. */
  lemma RelationshipsReadBack(g: Graph, o: Facts, steps: seq<Step>, r: string, a: Relationship)
    requires IsProjection(g, o) && NoDrift(o, steps)
    requires forall b :: b in g.relationships ==>
      var x := RelationshipOf(g.resources, b); ':' !in x.kind && ':' !in x.name && ':' !in x.target
    ensures (exists v :: v in ValuesAfter(ResourceArgv(steps, r), "--relationship") && DecodeRelationship(v) == Some(a))
            <==> exists b :: b in g.relationships && ModuleOf(g.resources, b.owner) == r
                             && Effective(RelationshipOf(g.resources, b)) == a
  {
    SilentRelationships(o, steps);
    if v :| v in ValuesAfter(ResourceArgv(steps, r), "--relationship") && DecodeRelationship(v) == Some(a) {
      FactsAreBlocks(g, o, Fact(r, v));
      var b :| b in g.relationships && RelationshipFact(g.resources, b) == Fact(r, v);
      EffectiveFlag(RelationshipOf(g.resources, b));
    }
    if exists b :: b in g.relationships && ModuleOf(g.resources, b.owner) == r
                   && Effective(RelationshipOf(g.resources, b)) == a {
      var b :| b in g.relationships && ModuleOf(g.resources, b.owner) == r
               && Effective(RelationshipOf(g.resources, b)) == a;
      FactsAreBlocks(g, o, RelationshipFact(g.resources, b));
      EffectiveFlag(RelationshipOf(g.resources, b));
      assert RelationshipFlag(RelationshipOf(g.resources, b)) in ValuesAfter(ResourceArgv(steps, r), "--relationship");
    }
  }

  lemma EffectiveFlag(x: Relationship)
    requires ':' !in x.kind && ':' !in x.name && ':' !in x.target
    ensures DecodeRelationship(RelationshipFlag(x)) == Some(Effective(x))
  {
    RelationshipFlagFaithful(Effective(x));
  }

  /** What the generator makes of a relationship: `required` counts for `belongs_to` only. */
  function Effective(r: Relationship): Relationship {
    r.(required := r.required && r.kind == "belongs_to")
  }

  /** The whole program from the ontology blocks on. */
  method CheckRendered(g: Graph, steps: seq<Step>) returns (o: Facts, drift: seq<Finding>, noDrift: bool)
    ensures IsProjection(g, o)
    ensures forall f :: f in drift <==> Drifts(o, steps, f)
    ensures noDrift <==> Agreement(o, steps)
  {
    o := ParseOntology(g);
    drift, noDrift := Check(o, steps);
    SilenceIsAgreement(o, steps);
  }
}
