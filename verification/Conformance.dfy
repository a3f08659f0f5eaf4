/** The conformance check as a whole: both runs, every log, and the cross-run guard flip. */
module Conformance {
  import opened Text
  import opened Ocel
  import opened Structure
  import opened Seals
  import opened Coverage
  import U = Underscore

  /** What the program reads: whether the fixture is a directory, the files under its `lib`, the
      plan parsed from each rendered task file, the parsed ledger if there is one, the declared
      capabilities, and the logs of each run directory that exists, in listing order. */
  datatype Inputs = Inputs(fixtureIsDir: bool, files: set<string>, taskFiles: seq<seq<PlanStep>>,
                           ledger: Option<seq<Record>>, capabilities: map<string, bool>, logs: map<Run, seq<Log>>)

  function Plan(inp: Inputs): seq<PlanStep> {
    if |inp.taskFiles| == 1 then inp.taskFiles[0] else []
  }

  /** The ledger as a map: every label with the exit of its last record. */
  ghost function Ledger(inp: Inputs): map<string, Option<Value>> {
    var records := Or(inp.ledger, []);
    map l | l in Labels(records) && LastExit(records, l).Some? :: LastExit(records, l).value
  }

  /** The events of the logs with the OCEL suffix, log after log. */
  function Stream(logs: seq<Log>): seq<Event> {
    if logs == [] then []
    else
      var last := logs[|logs| - 1];
      Stream(logs[..|logs| - 1]) + (if EndsWith(last.name, SUFFIX) then EventsIn(last.doc) else [])
  }

  predicate IsModule(subject: string) { subject != "" && IsUpper(subject[0]) }

  function ModulePath(subject: string): string { U.Underscore(subject) + ".ex" }

  /** The file a module is expected in: its name, folded, with `_` where a word starts. */
  ghost function FileOf(subject: string): string { U.OnePass(subject, 0) + ".ex" }

  lemma FileOfBook()
    ensures ModulePath("BookLibrary.Catalog.Book") == "book_library/catalog/book" + ".ex"
  {
    U.FileOfBook();
  }

  lemma ModulePathIsFile(subject: string)
    ensures ModulePath(subject) == FileOf(subject)
  {
    U.TwoPassesAreOne(subject);
  }

  // ---------------------------------------------------------------- what is a violation

  ghost predicate AdmissionFinding(capabilities: map<string, bool>, events: seq<Event>, f: RunFault) {
    match f
    case ComposedUndeclared(e) => e in events && e.ty == COMPOSED && (Task(e).None? || Task(e).value !in capabilities)
    case ComposedForbidden(e) =>
      e in events && e.ty == COMPOSED && Task(e).Some? && Task(e).value in capabilities && !capabilities[Task(e).value]
    case _ => false
  }

  ghost predicate RefusedIn(events: seq<Event>, task: string) {
    exists e :: e in events && e.ty == REFUSED && Task(e) == Some(task)
  }

  ghost predicate ComposedIn(events: seq<Event>, subject: string) {
    exists e :: e in events && e.ty == COMPOSED && Subject(e) == Some(subject)
  }

  ghost predicate BaseFollowsCore(events: seq<Event>) {
    exists i, j :: 0 <= i < j < |events|
                   && Phase(events[i]) == Some(Str("core")) && Phase(events[j]) == Some(Str("base"))
  }

  ghost predicate RunFinding(inp: Inputs, events: seq<Event>, f: RunFault) {
    match f
    case MissingDirectory => false
    case Coverage(c) => Plan(inp) != [] && CoverageFinding(Plan(inp), Decisions(events), c)
    case ComposedUndeclared(_) => AdmissionFinding(inp.capabilities, events, f)
    case ComposedForbidden(_) => AdmissionFinding(inp.capabilities, events, f)
    case NotRefused(t) => t in inp.capabilities && !inp.capabilities[t] && !RefusedIn(events, t)
    case BaseAfterCore => BaseFollowsCore(events)
    case NotOnDisk(s) => inp.fixtureIsDir && ComposedIn(events, s) && IsModule(s) && FileOf(s) !in inp.files
  }

  function GuardedSubjects(events: seq<Event>): set<Option<string>> {
    set e | e in events && e.ty == GUARDED :: Subject(e)
  }

  ghost predicate SetupFinding(inp: Inputs, f: SetupFault) {
    match f
    case NotADirectory => !inp.fixtureIsDir
    case TaskFiles(n) => n == |inp.taskFiles| != 1
    case EmptyPlan => |inp.taskFiles| == 1 && Plan(inp) == []
    case NoLedger => inp.ledger.None?
    case DuplicateLabel(l) => multiset(Labels(Or(inp.ledger, [])))[l] > 1
    case NoFlip =>
      Run1 in inp.logs && Run2 in inp.logs &&
      GuardedSubjects(Stream(inp.logs[Run2])) - GuardedSubjects(Stream(inp.logs[Run1])) == {}
  }

  /** What one run is reported for. */
  ghost predicate ViolatesIn(inp: Inputs, ledger: map<string, Option<Value>>, run: Run, v: Violation) {
    match v
    case OfLog(r, log, f) =>
      r == run && run in inp.logs && log in inp.logs[run] && EndsWith(log.name, SUFFIX) &&
        LogFinding(run, log, ledger, f)
    case OfRun(r, f) =>
      r == run && if run in inp.logs then RunFinding(inp, Stream(inp.logs[run]), f) else f == MissingDirectory
    case OfSetup(f) => false
  }

  ghost predicate Violates(inp: Inputs, v: Violation) {
    || (v.OfSetup? && SetupFinding(inp, v.setupFault))
    || ViolatesIn(inp, Ledger(inp), Run1, v)
    || ViolatesIn(inp, Ledger(inp), Run2, v)
  }

  ghost predicate Conformant(inp: Inputs) {
    forall v :: !Violates(inp, v)
  }

  // ---------------------------------------------------------------- one run

  ghost predicate OfThisRun(run: Run, v: Violation) { v.OfRun? && v.run == run }

  method CheckAdmission(result: Report, run: Run, capabilities: map<string, bool>, events: seq<Event>)
    returns (ghost added: seq<Violation>)
    modifies result`violations
    ensures result.violations == old(result.violations) + added
    ensures forall v :: v in added <==> OfThisRun(run, v) && AdmissionFinding(capabilities, events, v.runFault)
  {
    added := [];
    for i := 0 to |events|
      invariant result.violations == old(result.violations) + added
      invariant forall v :: v in added <==>
        OfThisRun(run, v) && AdmissionFinding(capabilities, events, v.runFault) && v.runFault.event in events[..i]
    {
      TakePush(events, i);
      var e := events[i];
      if e.ty != COMPOSED {
        continue;
      }
      if Task(e).None? || Task(e).value !in capabilities {
        result.Add(OfRun(run, ComposedUndeclared(e)));
        added := added + [OfRun(run, ComposedUndeclared(e))];
      } else if !capabilities[Task(e).value] {
        result.Add(OfRun(run, ComposedForbidden(e)));
        added := added + [OfRun(run, ComposedForbidden(e))];
      }
    }
    assert events[..|events|] == events;
  }

  method CheckRefusals(result: Report, run: Run, capabilities: map<string, bool>, events: seq<Event>)
    returns (ghost added: seq<Violation>)
    modifies result`violations
    ensures result.violations == old(result.violations) + added
    ensures forall v :: v in added <==>
      OfThisRun(run, v) && v.runFault.NotRefused? && v.runFault.task in capabilities &&
      !capabilities[v.runFault.task] && !RefusedIn(events, v.runFault.task)
  {
    added := [];
    var refused := set e | e in events && e.ty == REFUSED :: Task(e);
    forall t ensures Some(t) in refused <==> RefusedIn(events, t) {}
    var todo := capabilities.Keys;
    while todo != {}
      invariant todo <= capabilities.Keys
      invariant result.violations == old(result.violations) + added
      invariant forall v :: v in added <==>
        OfThisRun(run, v) && v.runFault.NotRefused? && v.runFault.task in capabilities.Keys - todo &&
        !capabilities[v.runFault.task] && Some(v.runFault.task) !in refused
    {
      var task :| task in todo;
      if !capabilities[task] && Some(task) !in refused {
        result.Add(OfRun(run, NotRefused(task)));
        added := added + [OfRun(run, NotRefused(task))];
      }
      todo := todo - {task};
    }
  }

  method CheckOrder(result: Report, run: Run, events: seq<Event>) returns (ghost added: seq<Violation>)
    modifies result`violations
    ensures result.violations == old(result.violations) + added
    ensures forall v :: v in added <==> v == OfRun(run, BaseAfterCore) && BaseFollowsCore(events)
  {
    var seenCore := false;
    for i := 0 to |events|
      invariant result.violations == old(result.violations)
      invariant seenCore <==> exists j :: 0 <= j < i && Phase(events[j]) == Some(Str("core"))
      invariant !BaseFollowsCore(events[..i])
    {
      if Phase(events[i]) == Some(Str("core")) {
        seenCore := true;
      } else if Phase(events[i]) == Some(Str("base")) && seenCore {
        result.Add(OfRun(run, BaseAfterCore));
        return [OfRun(run, BaseAfterCore)];
      }
    }
    assert events[..|events|] == events;
    return [];
  }

  method CheckSubjectsOnDisk(result: Report, run: Run, files: set<string>, events: seq<Event>)
    returns (ghost added: seq<Violation>)
    modifies result`violations
    ensures result.violations == old(result.violations) + added
    ensures forall v :: v in added <==>
      OfThisRun(run, v) && v.runFault.NotOnDisk? && ComposedIn(events, v.runFault.subject) &&
      IsModule(v.runFault.subject) && FileOf(v.runFault.subject) !in files
  {
    added := [];
    var subjects := set e | e in events && e.ty == COMPOSED && Subject(e).Some? && Subject(e).value != ""
                    :: Subject(e).value;
    forall s | s != "" ensures s in subjects <==> ComposedIn(events, s) {
      if e :| e in events && e.ty == COMPOSED && Subject(e) == Some(s) { assert Subject(e).value in subjects; }
    }
    var todo := subjects;
    while todo != {}
      invariant todo <= subjects
      invariant result.violations == old(result.violations) + added
      invariant forall v :: v in added <==>
        OfThisRun(run, v) && v.runFault.NotOnDisk? && v.runFault.subject in subjects - todo &&
        IsModule(v.runFault.subject) && FileOf(v.runFault.subject) !in files
    {
      var subject :| subject in todo;
      todo := todo - {subject};
      if !IsModule(subject) {
        continue;
      }
      ModulePathIsFile(subject);
      if ModulePath(subject) !in files {
        result.Add(OfRun(run, NotOnDisk(subject)));
        added := added + [OfRun(run, NotOnDisk(subject))];
      }
    }
  }

  method CheckLogs(result: Report, run: Run, logs: seq<Log>, ledger: map<string, Option<Value>>)
    returns (events: seq<Event>, ghost added: seq<Violation>)
    modifies result`violations
    ensures result.violations == old(result.violations) + added
    ensures events == Stream(logs)
    ensures forall v :: v in added <==>
      v.OfLog? && v.run == run && v.log in logs && EndsWith(v.log.name, SUFFIX) &&
        LogFinding(run, v.log, ledger, v.logFault)
  {
    events, added := [], [];
    for i := 0 to |logs|
      invariant result.violations == old(result.violations) + added
      invariant events == Stream(logs[..i])
      invariant forall v :: v in added <==>
        v.OfLog? && v.run == run && v.log in logs[..i] && EndsWith(v.log.name, SUFFIX) &&
        LogFinding(run, v.log, ledger, v.logFault)
    {
      TakePush(logs, i);
      assert logs[..i + 1][..i] == logs[..i];
      if !EndsWith(logs[i].name, SUFFIX) {
        continue;
      }
      var more := CheckLog(result, run, logs[i], ledger);
      ConcatAssociative(old(result.violations), added, more);
      added := added + more;
      events := events + EventsIn(logs[i].doc);
    }
    assert logs[..|logs|] == logs;
  }

  function SummaryOf(events: seq<Event>): Summary {
    Summary(|events|, set e | e in events && e.ty == COMPOSED :: Task(e), |OfType(events, COMPOSED)|,
            |OfType(events, COMPOSED)| + |OfType(events, GUARDED)|, GuardedSubjects(events),
            set e | e in events && e.ty == REFUSED :: Task(e))
  }

  /** `[e for e in events if e["type"] == ty]`. */
  function OfType(events: seq<Event>, ty: string): seq<Event> {
    if events == [] then []
    else
      var last := events[|events| - 1];
      OfType(events[..|events| - 1], ty) + (if last.ty == ty then [last] else [])
  }

  /** The body of the loop over the runs. */
  method CheckRun(result: Report, run: Run, inp: Inputs, plan: seq<PlanStep>, ledger: map<string, Option<Value>>)
    returns (ghost added: seq<Violation>)
    requires plan == Plan(inp)
    modifies result
    ensures result.violations == old(result.violations) + added
    ensures forall v :: v in added <==> ViolatesIn(inp, ledger, run, v)
    ensures result.runs == old(result.runs) +
      if run in inp.logs then map[run := SummaryOf(Stream(inp.logs[run]))] else map[]
  {
    if run !in inp.logs {
      result.Add(OfRun(run, MissingDirectory));
      return [OfRun(run, MissingDirectory)];
    }
    var events, logFaults := CheckLogs(result, run, inp.logs[run], ledger);
    var runFaults := CheckEventsOfRun(result, run, inp, plan, events);
    result.runs := result.runs[run := SummaryOf(events)];
    added := logFaults + runFaults;
  }

  method CheckRunCoverage(result: Report, run: Run, inp: Inputs, plan: seq<PlanStep>, events: seq<Event>)
    returns (ghost added: seq<Violation>)
    requires plan == Plan(inp)
    modifies result`violations
    ensures result.violations == old(result.violations) + added
    ensures forall v :: v in added <==> IsCoverage(run, v) && RunFinding(inp, events, v.runFault)
  {
    added := [];
    if plan != [] {
      added := CheckCoverage(result, run, plan, events);
    }
  }

  method CheckRunSubjects(result: Report, run: Run, inp: Inputs, events: seq<Event>)
    returns (ghost added: seq<Violation>)
    modifies result`violations
    ensures result.violations == old(result.violations) + added
    ensures forall v :: v in added <==>
      OfThisRun(run, v) && v.runFault.NotOnDisk? && RunFinding(inp, events, v.runFault)
  {
    added := [];
    if inp.fixtureIsDir {
      added := CheckSubjectsOnDisk(result, run, inp.files, events);
    }
  }

  method CheckEventsOfRun(result: Report, run: Run, inp: Inputs, plan: seq<PlanStep>, events: seq<Event>)
    returns (ghost added: seq<Violation>)
    requires plan == Plan(inp)
    modifies result`violations
    ensures result.violations == old(result.violations) + added
    ensures forall v :: v in added <==> OfThisRun(run, v) && RunFinding(inp, events, v.runFault)
  {
    var coverage := CheckRunCoverage(result, run, inp, plan, events);
    var admission := CheckAdmission(result, run, inp.capabilities, events);
    var refusals := CheckRefusals(result, run, inp.capabilities, events);
    var order := CheckOrder(result, run, events);
    var subjects := CheckRunSubjects(result, run, inp, events);
    added := coverage + admission + refusals + order + subjects;
  }

  // ---------------------------------------------------------------- the program

  lemma LedgerMap(inp: Inputs, ledger: map<string, Option<Value>>, dupes: seq<string>)
    requires LedgerOf(Or(inp.ledger, []), ledger, dupes)
    ensures ledger == Ledger(inp)
  {
    forall l ensures l in Labels(Or(inp.ledger, [])) <==> LastExit(Or(inp.ledger, []), l).Some? {
      LabelledHasExit(Or(inp.ledger, []), l);
    }
  }

  method ReadLedger(result: Report, inp: Inputs)
    returns (ledger: map<string, Option<Value>>, ghost added: seq<Violation>)
    modifies result`violations
    ensures result.violations == old(result.violations) + added
    ensures ledger == Ledger(inp)
    ensures forall v :: v in added <==>
      v.OfSetup? && (v.setupFault.NoLedger? || v.setupFault.DuplicateLabel?) && SetupFinding(inp, v.setupFault)
  {
    if inp.ledger.None? {
      result.Add(OfSetup(NoLedger));
      return map[], [OfSetup(NoLedger)];
    }
    var dupes;
    ledger, dupes := LoadLedger(inp.ledger.value);
    LedgerMap(inp, ledger, dupes);
    added := ReportDuplicates(result, dupes);
  }

  method ReportDuplicates(result: Report, dupes: seq<string>) returns (ghost added: seq<Violation>)
    modifies result`violations
    ensures result.violations == old(result.violations) + added
    ensures forall v :: v in added <==> v.OfSetup? && v.setupFault.DuplicateLabel? && v.setupFault.step in dupes
  {
    var todo := set l | l in dupes;
    added := [];
    while todo != {}
      invariant forall l :: l in todo ==> l in dupes
      invariant result.violations == old(result.violations) + added
      invariant forall v :: v in added <==>
        v.OfSetup? && v.setupFault.DuplicateLabel? && v.setupFault.step in dupes && v.setupFault.step !in todo
    {
      var l :| l in todo;
      result.Add(OfSetup(DuplicateLabel(l)));
      added := added + [OfSetup(DuplicateLabel(l))];
      todo := todo - {l};
    }
  }

  method ReadPlan(result: Report, inp: Inputs) returns (plan: seq<PlanStep>, ghost added: seq<Violation>)
    modifies result`violations
    ensures result.violations == old(result.violations) + added
    ensures plan == Plan(inp)
    ensures forall v :: v in added <==>
      v.OfSetup? && (v.setupFault.NotADirectory? || v.setupFault.TaskFiles? || v.setupFault.EmptyPlan?) &&
      SetupFinding(inp, v.setupFault)
  {
    added := [];
    if !inp.fixtureIsDir {
      result.Add(OfSetup(NotADirectory));
      added := added + [OfSetup(NotADirectory)];
    }
    plan := [];
    if |inp.taskFiles| != 1 {
      result.Add(OfSetup(TaskFiles(|inp.taskFiles|)));
      added := added + [OfSetup(TaskFiles(|inp.taskFiles|))];
    } else {
      plan := inp.taskFiles[0];
      if plan == [] {
        result.Add(OfSetup(EmptyPlan));
        added := added + [OfSetup(EmptyPlan)];
      }
    }
  }

  method CheckSetup(result: Report, inp: Inputs)
    returns (plan: seq<PlanStep>, ledger: map<string, Option<Value>>, ghost added: seq<Violation>)
    modifies result`violations
    ensures result.violations == old(result.violations) + added
    ensures plan == Plan(inp) && ledger == Ledger(inp)
    ensures forall v :: v in added <==> v.OfSetup? && !v.setupFault.NoFlip? && SetupFinding(inp, v.setupFault)
  {
    ghost var first, second;
    plan, first := ReadPlan(result, inp);
    ledger, second := ReadLedger(result, inp);
    added := first + second;
  }

  method CheckFlip(result: Report, inp: Inputs) returns (ghost added: seq<Violation>)
    requires forall r :: r in result.runs <==> r in inp.logs
    requires forall r :: r in result.runs ==> result.runs[r] == SummaryOf(Stream(inp.logs[r]))
    modifies result`violations
    ensures result.violations == old(result.violations) + added
    ensures forall v :: v in added <==> v == OfSetup(NoFlip) && SetupFinding(inp, NoFlip)
  {
    added := [];
    if Run1 in result.runs && Run2 in result.runs {
      var flipped := result.runs[Run2].guarded - result.runs[Run1].guarded;
      if flipped == {} {
        result.Add(OfSetup(NoFlip));
        added := [OfSetup(NoFlip)];
      }
    }
  }

  lemma AllParts(inp: Inputs, setup: seq<Violation>, first: seq<Violation>, second: seq<Violation>,
                 flip: seq<Violation>)
    requires forall v :: v in setup <==> v.OfSetup? && !v.setupFault.NoFlip? && SetupFinding(inp, v.setupFault)
    requires forall v :: v in first <==> ViolatesIn(inp, Ledger(inp), Run1, v)
    requires forall v :: v in second <==> ViolatesIn(inp, Ledger(inp), Run2, v)
    requires forall v :: v in flip <==> v == OfSetup(NoFlip) && SetupFinding(inp, NoFlip)
    ensures forall v :: v in setup + first + second + flip <==> Violates(inp, v)
  {
    forall v ensures v in setup + first + second + flip <==> Violates(inp, v) {
      assert v in setup + first + second + flip <==> v in setup || v in first || v in second || v in flip;
    }
  }

  /** `main`: the report holds exactly the violations there are. */
  method Check(inp: Inputs) returns (result: Report, conformant: bool)
    ensures fresh(result)
    ensures forall v :: v in result.violations <==> Violates(inp, v)
    ensures conformant <==> Conformant(inp)
    ensures forall r :: r in result.runs <==> r in inp.logs
    ensures forall r :: r in result.runs ==> result.runs[r] == SummaryOf(Stream(inp.logs[r]))
  {
    result := new Report();
    var plan, ledger, setup := CheckSetup(result, inp);
    var first := CheckRun(result, Run1, inp, plan, ledger);
    var second := CheckRun(result, Run2, inp, plan, ledger);
    forall r: Run ensures r in result.runs <==> r in inp.logs { assert r == Run1 || r == Run2; }
    var flip := CheckFlip(result, inp);
    assert result.violations == setup + first + second + flip;
    AllParts(inp, setup, first, second, flip);
    conformant := result.violations == [];
    EmptyOrInhabited(result.violations);
  }
}
