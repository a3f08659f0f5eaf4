/** The drift check: ontology facts against the argv of the rendered generator steps, in both
    directions, with the position check for the list-valued properties. */
module DriftCheck {
  import opened Text
  import opened Ontology

  /** One composed mix task of the rendered plan. */
  datatype Step = Step(task: string, argv: seq<string>)

  const RESOURCE := "ash.gen.resource"
  const ENUM := "ash.gen.enum"
  const DOMAIN := "ash.gen.domain"

  datatype Finding =
    // the report is not about anything
    | ParseFailure(message: string)
    | NoSteps
    // direction 1: a fact that reaches no invocation
    | DomainMissing(domain: string)
    | ResourceMissing(resource: string)
    | AttributeMissing(fact: Fact)
    | RelationshipMissing(fact: Fact)
    | ExtensionMissing(fact: Fact)
    | SupportMissing(support: Support)
    | SupportForbidden(support: Support)
    | ValuesOnNonEnum(support: Support)
    | EnumWithoutValues(support: Support)
    | EnumValueMissing(support: Support, value: string)
    | EnumOrder(support: Support, found: seq<string>, expected: seq<string>)
    | ActionsAbsent(resource: string)
    | ActionMissing(resource: string, value: string)
    | ActionOrder(resource: string, found: seq<string>, expected: seq<string>)
    // direction 2: an invocation with no fact behind it
    | ResourceUndeclared(resource: string)
    | AttributeUnbacked(resource: string, value: string)
    | RelationshipUnbacked(resource: string, value: string)
    | ExtensionUnbacked(resource: string, value: string)
    | ActionUnbacked(resource: string, value: string)
    | EnumCsvMissing(enum: string)
    | EnumValueUnbacked(enum: string, value: string)
    | TaskUndeclared(task: string)
    | TaskForbidden(task: string)

  // ---------------------------------------------------------------- reading an argv

  /** Every argument that directly follows an occurrence of the flag. */
  function ValuesAfter(argv: seq<string>, flag: string): seq<string> {
    if |argv| < 2 then []
    else (if argv[0] == flag then [argv[1]] else []) + ValuesAfter(argv[1..], flag)
  }

  lemma {:induction false} InValuesAfter(argv: seq<string>, flag: string, v: string)
    ensures v in ValuesAfter(argv, flag) <==> exists i :: 0 <= i < |argv| - 1 && argv[i] == flag && argv[i + 1] == v
  {
    if |argv| >= 2 {
      InValuesAfter(argv[1..], flag, v);
      assert forall i :: 0 <= i < |argv| - 1 ==> argv[1..][i] == argv[i + 1];
      if i :| 0 <= i < |argv| - 1 && argv[i] == flag && argv[i + 1] == v {
        if i > 0 { assert argv[1..][i - 1] == flag && argv[1..][i - 1 + 1] == v; }
      }
      if v in ValuesAfter(argv[1..], flag) {
        var i :| 0 <= i < |argv[1..]| - 1 && argv[1..][i] == flag && argv[1..][i + 1] == v;
        assert argv[i + 1] == flag && argv[i + 1 + 1] == v;
      } else if v in ValuesAfter(argv, flag) {
        assert argv[0] == flag && argv[0 + 1] == v;
      }
    }
  }

  /** The values csv of an enum invocation: its second positional, if it has one. */
  function EnumValues(argv: seq<string>): Option<seq<string>> {
    if |argv| < 2 || StartsWith(argv[1], "--") then None else Some(Split(argv[1], ','))
  }

  /** The values of an enum invocation are those whose csv is its second argument, unless that is a
      flag. */
  lemma EnumValuesMeaning(argv: seq<string>, vs: seq<string>)
    ensures EnumValues(argv) == Some(vs) <==>
            && |argv| >= 2 && !(|argv[1]| >= 2 && argv[1][0] == '-' && argv[1][1] == '-')
            && vs != [] && (forall v :: v in vs ==> ',' !in v) && argv[1] == Join(",", vs)
    ensures EnumValues(argv).None? <==> |argv| < 2 || (|argv[1]| >= 2 && argv[1][0] == '-' && argv[1][1] == '-')
  {
    if |argv| >= 2 {
      assert StartsWith(argv[1], "--") <==> |argv[1]| >= 2 && argv[1][0] == '-' && argv[1][1] == '-';
      JoinOfSplit(argv[1], ',');
      if vs != [] && forall v :: v in vs ==> ',' !in v { SplitOfJoin(vs, ','); }
    }
  }

  /** The argv of the last step of this task whose first argument is `key`. */
  function LastStep(steps: seq<Step>, task: string, key: string): Option<seq<string>> {
    if steps == [] then None
    else
      var last := steps[|steps| - 1];
      if last.task == task && last.argv != [] && last.argv[0] == key then Some(last.argv)
      else LastStep(steps[..|steps| - 1], task, key)
  }

  function ResourceArgv(steps: seq<Step>, resource: string): seq<string> {
    var argv := LastStep(steps, RESOURCE, resource);
    if argv.Some? then argv.value else []
  }

  predicate Passes(steps: seq<Step>, task: string, arg: string) {
    exists s :: s in steps && s.task == task && arg in s.argv
  }

  /** The actions declared for one resource, in declaration order. */
  function ActionsOf(actions: seq<Fact>, resource: string): seq<string> {
    if actions == [] then []
    else
      var last := actions[|actions| - 1];
      ActionsOf(actions[..|actions| - 1], resource) + (if last.resource == resource then [last.value] else [])
  }

  lemma {:induction false} InActionsOf(actions: seq<Fact>, resource: string, v: string)
    ensures v in ActionsOf(actions, resource) <==> Fact(resource, v) in actions
  {
    if actions != [] {
      InActionsOf(actions[..|actions| - 1], resource, v);
      assert actions == actions[..|actions| - 1] + [actions[|actions| - 1]];
    }
  }

  /** The values of the last enum support module of this name. */
  function EnumFacts(supports: seq<Support>, mod: string): Option<seq<string>> {
    if supports == [] then None
    else
      var last := supports[|supports| - 1];
      if last.kind == "enum" && last.mod == mod then Some(last.values)
      else EnumFacts(supports[..|supports| - 1], mod)
  }

  // ---------------------------------------------------------------- what counts as drift

  ghost predicate PreambleDrift(o: Facts, steps: seq<Step>, f: Finding) {
    match f
    case ParseFailure(m) => m in o.parseFailures
    case NoSteps => steps == []
    case _ => false
  }

  ghost predicate FactDrift(o: Facts, steps: seq<Step>, f: Finding) {
    match f
    case DomainMissing(d) => d in o.domains && !Passes(steps, DOMAIN, d)
    case ResourceMissing(r) => r in o.resources && LastStep(steps, RESOURCE, r).None?
    case AttributeMissing(a) =>
      a in o.attributes && a.value !in ValuesAfter(ResourceArgv(steps, a.resource), "--attribute")
    case RelationshipMissing(r) =>
      r in o.relationships && r.value !in ValuesAfter(ResourceArgv(steps, r.resource), "--relationship")
    case ExtensionMissing(e) =>
      e in o.extensions &&
      e.value !in Split(Join(",", ValuesAfter(ResourceArgv(steps, e.resource), "--extend")), ',')
    case _ => false
  }

  ghost predicate SupportDrift(o: Facts, steps: seq<Step>, f: Finding) {
    match f
    case SupportMissing(s) => s in o.supports && IsAdmitted(o, SupportTask(s)) && !Passes(steps, SupportTask(s), s.mod)
    case SupportForbidden(s) =>
      s in o.supports && !IsAdmitted(o, SupportTask(s)) && Passes(steps, SupportTask(s), s.mod)
    case _ => false
  }

  function SupportTask(s: Support): string { "ash.gen." + s.kind }

  predicate IsAdmitted(o: Facts, task: string) { task in o.capabilities && o.capabilities[task] }

  /** The csv a declared enum is compared against, when there is one. */
  function EnumCsv(steps: seq<Step>, enum: string): Option<seq<string>> {
    var argv := LastStep(steps, ENUM, enum);
    if argv.Some? then EnumValues(argv.value) else None
  }

  /** Drift of one support module whose enum step, if any, carries this csv. */
  ghost predicate EnumFinding(s: Support, csv: Option<seq<string>>, f: Finding) {
    match f
    case ValuesOnNonEnum(x) => x == s && s.kind != "enum" && s.values != []
    case EnumWithoutValues(x) => x == s && s.kind == "enum" && s.values == []
    case EnumValueMissing(x, v) => x == s && s.kind == "enum" && csv.Some? && v in s.values && v !in csv.value
    case EnumOrder(_, _, _) =>
      s.kind == "enum" && s.values != [] && csv.Some? && Misplaced(csv.value, s.values) &&
      f == EnumOrder(s, csv.value, Sort(s.values))
    case _ => false
  }

  /** `found` holds the declared values, each as often, but not in sorted order. */
  ghost predicate Misplaced(found: seq<string>, values: seq<string>) {
    found != Sort(values) && multiset(found) == multiset(values)
  }

  ghost predicate EnumDrift(o: Facts, steps: seq<Step>, f: Finding) {
    && (f.ValuesOnNonEnum? || f.EnumWithoutValues? || f.EnumValueMissing? || f.EnumOrder?)
    && f.support in o.supports
    && EnumFinding(f.support, EnumCsv(steps, f.support.mod), f)
  }

  /** The actions a resource is invoked with: the groups joined and split again, when there are any. */
  function ActionCsv(argv: seq<string>): Option<seq<string>> {
    var groups := ValuesAfter(argv, "--default-actions");
    if groups == [] then None else Some(Split(Join(",", groups), ','))
  }

  /** Drift of one resource that declares `values` and is invoked with this csv. */
  ghost predicate ActionFinding(resource: string, values: seq<string>, csv: Option<seq<string>>, f: Finding) {
    match f
    case ActionsAbsent(r) => r == resource && csv.None?
    case ActionMissing(r, v) => r == resource && csv.Some? && v in values && v !in csv.value
    case ActionOrder(_, _, _) =>
      csv.Some? && Misplaced(csv.value, values) && f == ActionOrder(resource, csv.value, Sort(values))
    case _ => false
  }

  ghost predicate ActionDrift(o: Facts, steps: seq<Step>, f: Finding) {
    && (f.ActionsAbsent? || f.ActionMissing? || f.ActionOrder?)
    && ActionsOf(o.actions, f.resource) != []
    && ActionFinding(f.resource, ActionsOf(o.actions, f.resource), ActionCsv(ResourceArgv(steps, f.resource)), f)
  }

  ghost predicate ArgvDrift(o: Facts, resource: string, argv: seq<string>, f: Finding) {
    match f
    case ResourceUndeclared(r) => r == resource && r !in o.resources
    case AttributeUnbacked(r, v) =>
      r == resource && v in ValuesAfter(argv, "--attribute") && Fact(r, v) !in o.attributes
    case RelationshipUnbacked(r, v) =>
      r == resource && v in ValuesAfter(argv, "--relationship") && Fact(r, v) !in o.relationships
    case ExtensionUnbacked(r, v) =>
      r == resource && v in SplitEach(ValuesAfter(argv, "--extend"), ',') && Fact(r, v) !in o.extensions
    case ActionUnbacked(r, v) =>
      r == resource && v in SplitEach(ValuesAfter(argv, "--default-actions"), ',') && v !in ActionsOf(o.actions, r)
    case _ => false
  }

  ghost predicate ResourceStepDrift(o: Facts, steps: seq<Step>, f: Finding) {
    && (f.ResourceUndeclared? || f.AttributeUnbacked? || f.RelationshipUnbacked? || f.ExtensionUnbacked?
        || f.ActionUnbacked?)
    && LastStep(steps, RESOURCE, f.resource).Some?
    && ArgvDrift(o, f.resource, LastStep(steps, RESOURCE, f.resource).value, f)
  }

  ghost predicate EnumStepDrift(o: Facts, steps: seq<Step>, f: Finding) {
    match f
    case EnumCsvMissing(m) => LastStep(steps, ENUM, m).Some? && EnumValues(LastStep(steps, ENUM, m).value).None?
    case EnumValueUnbacked(m, v) =>
      LastStep(steps, ENUM, m).Some? && EnumValues(LastStep(steps, ENUM, m).value).Some? &&
      v in EnumValues(LastStep(steps, ENUM, m).value).value && v !in Or(EnumFacts(o.supports, m), [])
    case _ => false
  }

  ghost predicate TaskDrift(o: Facts, steps: seq<Step>, f: Finding) {
    match f
    case TaskUndeclared(t) => (exists s :: s in steps && s.task == t) && t !in o.capabilities
    case TaskForbidden(t) => (exists s :: s in steps && s.task == t) && t in o.capabilities && !o.capabilities[t]
    case _ => false
  }

  ghost predicate Drifts(o: Facts, steps: seq<Step>, f: Finding) {
    || PreambleDrift(o, steps, f) || FactDrift(o, steps, f) || SupportDrift(o, steps, f) || EnumDrift(o, steps, f)
    || ActionDrift(o, steps, f) || ResourceStepDrift(o, steps, f) || EnumStepDrift(o, steps, f)
    || TaskDrift(o, steps, f)
  }

  // ---------------------------------------------------------------- the dictionaries

  /** The map holds exactly the keys some step of the task starts with, each with its last argv. */
  ghost predicate Indexes(byFirst: map<string, seq<string>>, steps: seq<Step>, task: string) {
    && (forall k :: k in byFirst <==> LastStep(steps, task, k).Some?)
    && (forall k :: k in byFirst ==> LastStep(steps, task, k) == Some(byFirst[k]))
  }

  method LastByFirstArgument(steps: seq<Step>, task: string) returns (byFirst: map<string, seq<string>>)
    ensures Indexes(byFirst, steps, task)
  {
    byFirst := map[];
    for i := 0 to |steps|
      invariant Indexes(byFirst, steps[..i], task)
    {
      assert steps[..i + 1][..i] == steps[..i];
      if steps[i].task == task && steps[i].argv != [] {
        byFirst := byFirst[steps[i].argv[0] := steps[i].argv];
      }
    }
    assert steps[..|steps|] == steps;
  }

  method GroupActions(actions: seq<Fact>) returns (grouped: map<string, seq<string>>)
    ensures forall r :: r in grouped <==> ActionsOf(actions, r) != []
    ensures forall r :: r in grouped ==> grouped[r] == ActionsOf(actions, r)
  {
    grouped := map[];
    for i := 0 to |actions|
      invariant forall r :: r in grouped <==> ActionsOf(actions[..i], r) != []
      invariant forall r :: r in grouped ==> grouped[r] == ActionsOf(actions[..i], r)
    {
      assert actions[..i + 1][..i] == actions[..i];
      var a := actions[i];
      var sofar := if a.resource in grouped then grouped[a.resource] else [];
      grouped := grouped[a.resource := sofar + [a.value]];
    }
    assert actions[..|actions|] == actions;
  }

  method IndexEnumFacts(supports: seq<Support>) returns (facts: map<string, seq<string>>)
    ensures forall m :: m in facts <==> EnumFacts(supports, m).Some?
    ensures forall m :: m in facts ==> EnumFacts(supports, m) == Some(facts[m])
  {
    facts := map[];
    for i := 0 to |supports|
      invariant forall m :: m in facts <==> EnumFacts(supports[..i], m).Some?
      invariant forall m :: m in facts ==> EnumFacts(supports[..i], m) == Some(facts[m])
    {
      assert supports[..i + 1][..i] == supports[..i];
      if supports[i].kind == "enum" {
        facts := facts[supports[i].mod := supports[i].values];
      }
    }
    assert supports[..|supports|] == supports;
  }

  // ---------------------------------------------------------------- direction 1

  method CheckPreamble(o: Facts, steps: seq<Step>) returns (drift: seq<Finding>)
    ensures forall f :: f in drift <==> PreambleDrift(o, steps, f)
  {
    drift := seq(|o.parseFailures|, i requires 0 <= i < |o.parseFailures| => ParseFailure(o.parseFailures[i]));
    assert forall m :: m in o.parseFailures ==> ParseFailure(m) in drift by {
      forall m | m in o.parseFailures ensures ParseFailure(m) in drift {
        var i :| 0 <= i < |o.parseFailures| && o.parseFailures[i] == m;
        assert drift[i] == ParseFailure(m);
      }
    }
    if steps == [] {
      drift := drift + [NoSteps];
    }
  }


  method CheckDomains(o: Facts, steps: seq<Step>) returns (drift: seq<Finding>)
    ensures forall f :: f in drift <==> f.DomainMissing? && FactDrift(o, steps, f)
  {
    drift := [];
    for i := 0 to |o.domains|
      invariant forall f :: f in drift <==> f.DomainMissing? && f.domain in o.domains[..i] && FactDrift(o, steps, f)
    {
      if !Passes(steps, DOMAIN, o.domains[i]) {
        drift := drift + [DomainMissing(o.domains[i])];
      }
    }
  }

  method CheckResources(o: Facts, steps: seq<Step>, byResource: map<string, seq<string>>) returns (drift: seq<Finding>)
    requires Indexes(byResource, steps, RESOURCE)
    ensures forall f :: f in drift <==> f.ResourceMissing? && FactDrift(o, steps, f)
  {
    drift := [];
    for i := 0 to |o.resources|
      invariant forall f :: f in drift <==>
        f.ResourceMissing? && f.resource in o.resources[..i] && FactDrift(o, steps, f)
    {
      if o.resources[i] !in byResource {
        drift := drift + [ResourceMissing(o.resources[i])];
      }
    }
  }

  method CheckAttributes(o: Facts, steps: seq<Step>, byResource: map<string, seq<string>>) returns (drift: seq<Finding>)
    requires Indexes(byResource, steps, RESOURCE)
    ensures forall f :: f in drift <==> f.AttributeMissing? && FactDrift(o, steps, f)
  {
    drift := [];
    for i := 0 to |o.attributes|
      invariant forall f :: f in drift <==> f.AttributeMissing? && f.fact in o.attributes[..i] && FactDrift(o, steps, f)
    {
      var a := o.attributes[i];
      var argv := if a.resource in byResource then byResource[a.resource] else [];
      if a.value !in ValuesAfter(argv, "--attribute") {
        drift := drift + [AttributeMissing(a)];
      }
    }
  }

  method CheckRelationships(o: Facts, steps: seq<Step>, byResource: map<string, seq<string>>)
    returns (drift: seq<Finding>)
    requires Indexes(byResource, steps, RESOURCE)
    ensures forall f :: f in drift <==> f.RelationshipMissing? && FactDrift(o, steps, f)
  {
    drift := [];
    for i := 0 to |o.relationships|
      invariant forall f :: f in drift <==>
        f.RelationshipMissing? && f.fact in o.relationships[..i] && FactDrift(o, steps, f)
    {
      var r := o.relationships[i];
      var argv := if r.resource in byResource then byResource[r.resource] else [];
      if r.value !in ValuesAfter(argv, "--relationship") {
        drift := drift + [RelationshipMissing(r)];
      }
    }
  }

  method CheckExtensions(o: Facts, steps: seq<Step>, byResource: map<string, seq<string>>) returns (drift: seq<Finding>)
    requires Indexes(byResource, steps, RESOURCE)
    ensures forall f :: f in drift <==> f.ExtensionMissing? && FactDrift(o, steps, f)
  {
    drift := [];
    for i := 0 to |o.extensions|
      invariant forall f :: f in drift <==> f.ExtensionMissing? && f.fact in o.extensions[..i] && FactDrift(o, steps, f)
    {
      var e := o.extensions[i];
      var argv := if e.resource in byResource then byResource[e.resource] else [];
      var joined := Join(",", ValuesAfter(argv, "--extend"));
      if e.value !in Split(joined, ',') {
        drift := drift + [ExtensionMissing(e)];
      }
    }
  }

  method CheckSupports(o: Facts, steps: seq<Step>) returns (drift: seq<Finding>)
    ensures forall f :: f in drift <==> SupportDrift(o, steps, f)
  {
    drift := [];
    for i := 0 to |o.supports|
      invariant forall f :: f in drift <==>
        (f.SupportMissing? || f.SupportForbidden?) && f.support in o.supports[..i] && SupportDrift(o, steps, f)
    {
      var sup := o.supports[i];
      var admitted := IsAdmitted(o, SupportTask(sup));
      var present := Passes(steps, SupportTask(sup), sup.mod);
      if admitted && !present {
        drift := drift + [SupportMissing(sup)];
      }
      if !admitted && present {
        drift := drift + [SupportForbidden(sup)];
      }
    }
  }

  /** A csv against the declared values: which values it lacks, and whether it holds the same
      values in another order than the sorted one. */
  method CompareCsv(found: seq<string>, values: seq<string>) returns (missing: seq<string>, misplaced: bool)
    ensures forall v :: v in missing <==> v in values && v !in found
    ensures misplaced <==> Misplaced(found, values)
  {
    var expected := Sort(values);
    SameElements(values, expected);
    missing := [];
    for i := 0 to |expected|
      invariant forall v :: v in missing <==> v in expected[..i] && v !in found
    {
      if expected[i] !in found {
        missing := missing + [expected[i]];
      }
    }
    misplaced := found != expected && Sort(found) == Sort(expected);
    SortsAlike(found, expected);
  }

  method EnumValuesMissing(sup: Support, values: seq<string>) returns (drift: seq<Finding>)
    ensures forall f :: f in drift <==> f.EnumValueMissing? && f.support == sup && f.value in values
  {
    drift := [];
    for i := 0 to |values|
      invariant forall f :: f in drift <==> f.EnumValueMissing? && f.support == sup && f.value in values[..i]
    {
      drift := drift + [EnumValueMissing(sup, values[i])];
    }
  }

  method ActionsMissing(resource: string, values: seq<string>) returns (drift: seq<Finding>)
    ensures forall f :: f in drift <==> f.ActionMissing? && f.resource == resource && f.value in values
  {
    drift := [];
    for i := 0 to |values|
      invariant forall f :: f in drift <==> f.ActionMissing? && f.resource == resource && f.value in values[..i]
    {
      drift := drift + [ActionMissing(resource, values[i])];
    }
  }

  method CheckEnum(sup: Support, csv: Option<seq<string>>) returns (drift: seq<Finding>)
    ensures forall f :: f in drift <==> EnumFinding(sup, csv, f)
  {
    if sup.kind != "enum" {
      return if sup.values != [] then [ValuesOnNonEnum(sup)] else [];
    }
    if sup.values == [] {
      return [EnumWithoutValues(sup)];
    }
    if csv.None? {
      return [];
    }
    var missing, misplaced := CompareCsv(csv.value, sup.values);
    drift := EnumValuesMissing(sup, missing);
    if misplaced {
      drift := drift + [EnumOrder(sup, csv.value, Sort(sup.values))];
    }
  }

  lemma EnumFindingIsAbout(s: Support, csv: Option<seq<string>>, f: Finding)
    requires EnumFinding(s, csv, f)
    ensures (f.ValuesOnNonEnum? || f.EnumWithoutValues? || f.EnumValueMissing? || f.EnumOrder?) && f.support == s
  {
  }

  method CheckEnums(o: Facts, steps: seq<Step>, byEnum: map<string, seq<string>>) returns (drift: seq<Finding>)
    requires Indexes(byEnum, steps, ENUM)
    ensures forall f :: f in drift <==> EnumDrift(o, steps, f)
  {
    drift := [];
    for i := 0 to |o.supports|
      invariant forall f :: f in drift <==> EnumDrift(o, steps, f) && f.support in o.supports[..i]
    {
      var sup := o.supports[i];
      var csv := if sup.mod in byEnum then EnumValues(byEnum[sup.mod]) else None;
      var findings := CheckEnum(sup, csv);
      forall f | f in findings ensures EnumDrift(o, steps, f) { EnumFindingIsAbout(sup, csv, f); }
      drift := drift + findings;
    }
  }

  method CheckResourceActions(resource: string, values: seq<string>, csv: Option<seq<string>>)
    returns (drift: seq<Finding>)
    ensures forall f :: f in drift <==> ActionFinding(resource, values, csv, f)
  {
    if csv.None? {
      return [ActionsAbsent(resource)];
    }
    var missing, misplaced := CompareCsv(csv.value, values);
    drift := ActionsMissing(resource, missing);
    if misplaced {
      drift := drift + [ActionOrder(resource, csv.value, Sort(values))];
    }
  }

  method CheckActions(o: Facts, steps: seq<Step>, byResource: map<string, seq<string>>,
                      actions: map<string, seq<string>>)
    returns (drift: seq<Finding>)
    requires Indexes(byResource, steps, RESOURCE)
    requires forall r :: r in actions <==> ActionsOf(o.actions, r) != []
    requires forall r :: r in actions ==> actions[r] == ActionsOf(o.actions, r)
    ensures forall f :: f in drift <==> ActionDrift(o, steps, f)
  {
    drift := [];
    var todo := actions.Keys;
    while todo != {}
      invariant todo <= actions.Keys
      invariant forall f :: f in drift <==> ActionDrift(o, steps, f) && f.resource !in todo
    {
      var resource :| resource in todo;
      var argv := if resource in byResource then byResource[resource] else [];
      var findings := CheckResourceActions(resource, actions[resource], ActionCsv(argv));
      drift := drift + findings;
      todo := todo - {resource};
    }
  }

  // ---------------------------------------------------------------- direction 2

  method CheckUnbackedAttributes(o: Facts, resource: string, argv: seq<string>) returns (drift: seq<Finding>)
    ensures forall f :: f in drift <==> f.AttributeUnbacked? && ArgvDrift(o, resource, argv, f)
  {
    var values := ValuesAfter(argv, "--attribute");
    drift := [];
    for i := 0 to |values|
      invariant forall f :: f in drift <==>
        f.AttributeUnbacked? && f.resource == resource && f.value in values[..i] &&
          Fact(resource, f.value) !in o.attributes
    {
      if Fact(resource, values[i]) !in o.attributes {
        drift := drift + [AttributeUnbacked(resource, values[i])];
      }
    }
  }

  method CheckUnbackedRelationships(o: Facts, resource: string, argv: seq<string>) returns (drift: seq<Finding>)
    ensures forall f :: f in drift <==> f.RelationshipUnbacked? && ArgvDrift(o, resource, argv, f)
  {
    var values := ValuesAfter(argv, "--relationship");
    drift := [];
    for i := 0 to |values|
      invariant forall f :: f in drift <==>
        f.RelationshipUnbacked? && f.resource == resource && f.value in values[..i] &&
          Fact(resource, f.value) !in o.relationships
    {
      if Fact(resource, values[i]) !in o.relationships {
        drift := drift + [RelationshipUnbacked(resource, values[i])];
      }
    }
  }

  method CheckUnbackedExtensions(o: Facts, resource: string, argv: seq<string>) returns (drift: seq<Finding>)
    ensures forall f :: f in drift <==> f.ExtensionUnbacked? && ArgvDrift(o, resource, argv, f)
  {
    var groups := ValuesAfter(argv, "--extend");
    drift := [];
    for i := 0 to |groups|
      invariant forall f :: f in drift <==>
        f.ExtensionUnbacked? && f.resource == resource && f.value in SplitEach(groups[..i], ',') &&
        Fact(resource, f.value) !in o.extensions
    {
      var parts := Split(groups[i], ',');
      for j := 0 to |parts|
        invariant forall f :: f in drift <==>
          f.ExtensionUnbacked? && f.resource == resource && f.value in SplitEach(groups[..i], ',') + parts[..j] &&
          Fact(resource, f.value) !in o.extensions
      {
        if Fact(resource, parts[j]) !in o.extensions {
          drift := drift + [ExtensionUnbacked(resource, parts[j])];
        }
      }
      SplitEachPush(groups[..i], ',', groups[i]);
      assert groups[..i + 1] == groups[..i] + [groups[i]];
      assert parts[..|parts|] == parts;
    }
    assert groups[..|groups|] == groups;
  }

  method CheckUnbackedActions(declared: seq<string>, resource: string, groups: seq<string>)
    returns (drift: seq<Finding>)
    ensures forall f :: f in drift <==>
      f.ActionUnbacked? && f.resource == resource && f.value in SplitEach(groups, ',') && f.value !in declared
  {
    drift := [];
    for i := 0 to |groups|
      invariant forall f :: f in drift <==>
        f.ActionUnbacked? && f.resource == resource && f.value in SplitEach(groups[..i], ',') && f.value !in declared
    {
      var parts := Split(groups[i], ',');
      for j := 0 to |parts|
        invariant forall f :: f in drift <==>
          f.ActionUnbacked? && f.resource == resource && f.value in SplitEach(groups[..i], ',') + parts[..j] &&
          f.value !in declared
      {
        if parts[j] !in declared {
          drift := drift + [ActionUnbacked(resource, parts[j])];
        }
      }
      SplitEachPush(groups[..i], ',', groups[i]);
      assert groups[..i + 1] == groups[..i] + [groups[i]];
      assert parts[..|parts|] == parts;
    }
    assert groups[..|groups|] == groups;
  }

  method CheckArgv(o: Facts, actions: map<string, seq<string>>, resource: string, argv: seq<string>)
    returns (drift: seq<Finding>)
    requires forall r :: r in actions <==> ActionsOf(o.actions, r) != []
    requires forall r :: r in actions ==> actions[r] == ActionsOf(o.actions, r)
    ensures forall f :: f in drift <==> ArgvDrift(o, resource, argv, f)
  {
    drift := if resource !in o.resources then [ResourceUndeclared(resource)] else [];
    var attributes := CheckUnbackedAttributes(o, resource, argv);
    var relationships := CheckUnbackedRelationships(o, resource, argv);
    var extensions := CheckUnbackedExtensions(o, resource, argv);
    var declared := if resource in actions then actions[resource] else [];
    var defaults := CheckUnbackedActions(declared, resource, ValuesAfter(argv, "--default-actions"));
    drift := drift + attributes + relationships + extensions + defaults;
  }

  method CheckResourceSteps(o: Facts, steps: seq<Step>, byResource: map<string, seq<string>>,
                            actions: map<string, seq<string>>)
    returns (drift: seq<Finding>)
    requires Indexes(byResource, steps, RESOURCE)
    requires forall r :: r in actions <==> ActionsOf(o.actions, r) != []
    requires forall r :: r in actions ==> actions[r] == ActionsOf(o.actions, r)
    ensures forall f :: f in drift <==> ResourceStepDrift(o, steps, f)
  {
    drift := [];
    var todo := byResource.Keys;
    while todo != {}
      invariant todo <= byResource.Keys
      invariant forall f :: f in drift <==> ResourceStepDrift(o, steps, f) && f.resource !in todo
    {
      var resource :| resource in todo;
      var findings := CheckArgv(o, actions, resource, byResource[resource]);
      drift := drift + findings;
      todo := todo - {resource};
    }
  }

  method CheckEnumSteps(o: Facts, steps: seq<Step>, byEnum: map<string, seq<string>>) returns (drift: seq<Finding>)
    requires Indexes(byEnum, steps, ENUM)
    ensures forall f :: f in drift <==> EnumStepDrift(o, steps, f)
  {
    drift := [];
    var facts := IndexEnumFacts(o.supports);
    var todo := byEnum.Keys;
    while todo != {}
      invariant todo <= byEnum.Keys
      invariant forall f :: f in drift <==> EnumStepDrift(o, steps, f) && f.enum !in todo
    {
      var enum :| enum in todo;
      var findings := CheckEnumStep(enum, byEnum[enum], if enum in facts then facts[enum] else []);
      drift := drift + findings;
      todo := todo - {enum};
    }
  }

  method CheckEnumStep(enum: string, argv: seq<string>, declared: seq<string>) returns (drift: seq<Finding>)
    ensures forall f :: f in drift <==>
      || (f == EnumCsvMissing(enum) && EnumValues(argv).None?)
      || (EnumValues(argv).Some? && f.EnumValueUnbacked? && f.enum == enum && f.value in EnumValues(argv).value &&
          f.value !in declared)
  {
    var found := EnumValues(argv);
    if found.None? {
      return [EnumCsvMissing(enum)];
    }
    drift := [];
    for i := 0 to |found.value|
      invariant forall f :: f in drift <==>
        f.EnumValueUnbacked? && f.enum == enum && f.value in found.value[..i] && f.value !in declared
    {
      if found.value[i] !in declared {
        drift := drift + [EnumValueUnbacked(enum, found.value[i])];
      }
    }
  }

  method CheckTasks(o: Facts, steps: seq<Step>) returns (drift: seq<Finding>)
    ensures forall f :: f in drift <==> TaskDrift(o, steps, f)
  {
    drift := [];
    var composed := set s | s in steps :: s.task;
    var todo := composed;
    while todo != {}
      invariant todo <= composed
      invariant forall f :: f in drift <==> TaskDrift(o, steps, f) && f.task !in todo
    {
      var task :| task in todo;
      if task !in o.capabilities {
        drift := drift + [TaskUndeclared(task)];
      } else if !o.capabilities[task] {
        drift := drift + [TaskForbidden(task)];
      }
      todo := todo - {task};
    }
  }

  // ---------------------------------------------------------------- the whole check

  /** `main`: the report holds exactly the drift there is; `no_drift` is its emptiness. */
  method Check(o: Facts, steps: seq<Step>) returns (drift: seq<Finding>, noDrift: bool)
    ensures forall f :: f in drift <==> Drifts(o, steps, f)
    ensures noDrift <==> NoDrift(o, steps)
  {
    drift := CheckPreamble(o, steps);
    var byResource := LastByFirstArgument(steps, RESOURCE);
    var byEnum := LastByFirstArgument(steps, ENUM);
    var actions := GroupActions(o.actions);

    var domains := CheckDomains(o, steps);
    var resources := CheckResources(o, steps, byResource);
    var attributes := CheckAttributes(o, steps, byResource);
    var relationships := CheckRelationships(o, steps, byResource);
    var extensions := CheckExtensions(o, steps, byResource);
    var supports := CheckSupports(o, steps);
    var enums := CheckEnums(o, steps, byEnum);
    var defaults := CheckActions(o, steps, byResource, actions);
    drift := drift + domains + resources + attributes + relationships + extensions + supports + enums + defaults;

    var resourceSteps := CheckResourceSteps(o, steps, byResource, actions);
    var enumSteps := CheckEnumSteps(o, steps, byEnum);
    var tasks := CheckTasks(o, steps);
    drift := drift + resourceSteps + enumSteps + tasks;

    noDrift := drift == [];
    if !noDrift { assert Drifts(o, steps, drift[0]); }
  }

  ghost predicate NoDrift(o: Facts, steps: seq<Step>) {
    forall f :: !Drifts(o, steps, f)
  }
}
