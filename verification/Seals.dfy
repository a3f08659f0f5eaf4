/** Seals and the harness ledger, and everything that is checked of one log. */
module Seals {
  import opened Text
  import opened Ocel
  import opened Structure

  // ---------------------------------------------------------------- the ledger

  /** The labels of the labelled records, in order. */
  function Labels(records: seq<Record>): seq<string> {
    if records == [] then []
    else
      var last := records[|records| - 1];
      Labels(records[..|records| - 1]) + (if last.step.Some? then [last.step.value] else [])
  }

  /** The exit of the last record with this label. */
  function LastExit(records: seq<Record>, step: string): Option<Option<Value>> {
    if records == [] then None
    else if records[|records| - 1].step == Some(step) then Some(records[|records| - 1].exit)
    else LastExit(records[..|records| - 1], step)
  }

  lemma {:induction false} LabelledHasExit(records: seq<Record>, step: string)
    ensures LastExit(records, step).Some? <==> step in Labels(records)
  {
    if records != [] { LabelledHasExit(records[..|records| - 1], step); }
  }

  ghost predicate LedgerOf(records: seq<Record>, steps: map<string, Option<Value>>, dupes: seq<string>) {
    && (forall l :: l in steps <==> LastExit(records, l).Some?)
    && (forall l :: l in steps ==> LastExit(records, l) == Some(steps[l]))
    && (forall l :: l in dupes <==> multiset(Labels(records))[l] > 1)
    && |Labels(records)| == |steps| + |dupes|
  }

  lemma LabelsPush(records: seq<Record>, r: Record)
    ensures Labels(records + [r]) == Labels(records) + if r.step.Some? then [r.step.value] else []
    ensures forall l :: LastExit(records + [r], l) == if r.step == Some(l) then Some(r.exit) else LastExit(records, l)
  {
  }

  lemma UnlabelledPush(records: seq<Record>, r: Record, steps: map<string, Option<Value>>, dupes: seq<string>)
    requires LedgerOf(records, steps, dupes) && r.step.None?
    ensures LedgerOf(records + [r], steps, dupes)
  {
  }

  lemma ExitsPush(records: seq<Record>, r: Record, steps: map<string, Option<Value>>)
    requires r.step.Some?
    requires forall l :: l in steps <==> LastExit(records, l).Some?
    requires forall l :: l in steps ==> LastExit(records, l) == Some(steps[l])
    ensures forall l :: l in steps[r.step.value := r.exit] <==> LastExit(records + [r], l).Some?
    ensures forall l :: l in steps[r.step.value := r.exit] ==>
      LastExit(records + [r], l) == Some(steps[r.step.value := r.exit][l])
  {
    LabelsPush(records, r);
  }

  lemma LabelledPush(records: seq<Record>, r: Record, steps: map<string, Option<Value>>, dupes: seq<string>)
    requires LedgerOf(records, steps, dupes) && r.step.Some?
    ensures LedgerOf(records + [r], steps[r.step.value := r.exit],
                     if r.step.value in steps then dupes + [r.step.value] else dupes)
  {
    LabelsPush(records, r);
    ExitsPush(records, r, steps);
    LabelledHasExit(records, r.step.value);
    DupesPush(Labels(records), r.step.value, dupes);
    UpdateSize(steps, r.step.value, r.exit);
  }

  lemma UpdateSize(m: map<string, Option<Value>>, k: string, v: Option<Value>)
    ensures |m[k := v]| == |m| + if k in m then 0 else 1
  {
  }

  lemma DupesPush(labels: seq<string>, l: string, dupes: seq<string>)
    requires forall x :: x in dupes <==> multiset(labels)[x] > 1
    ensures forall x :: x in (if l in labels then dupes + [l] else dupes) <==> multiset(labels + [l])[x] > 1
  {
  }

  /** `load_ledger`, from the parsed records on. */
  method LoadLedger(records: seq<Record>) returns (steps: map<string, Option<Value>>, dupes: seq<string>)
    ensures LedgerOf(records, steps, dupes)
  {
    steps, dupes := map[], [];
    for i := 0 to |records|
      invariant LedgerOf(records[..i], steps, dupes)
    {
      var rec := records[i];
      TakePush(records, i);
      if rec.step.None? {
        UnlabelledPush(records[..i], rec, steps, dupes);
        continue;
      }
      LabelledPush(records[..i], rec, steps, dupes);
      if rec.step.value in steps {
        dupes := dupes + [rec.step.value];
      }
      steps := steps[rec.step.value := rec.exit];
    }
    assert records[..|records|] == records;
  }

  // ---------------------------------------------------------------- seals against the ledger

  function RunName(run: Run): string { if run == Run1 then "run1" else "run2" }

  /** The last dot-segment of the log's stem. */
  function PhaseName(name: string): string
    requires EndsWith(name, SUFFIX)
  {
    var parts := Split(name[..|name| - |SUFFIX|], '.');
    parts[|parts| - 1]
  }

  function LedgerLabel(run: Run, name: string): string
    requires EndsWith(name, SUFFIX)
  {
    "manufacture-" + PhaseName(name) + "-" + RunName(run)
  }

  /** A log named `<task>.<phase>.ocel.json` is recorded under `manufacture-<phase>-<run>`. */
  lemma LabelMeaning(task: string, phase: string)
    requires '.' !in phase
    ensures var name := task + "." + phase + ".ocel.json";
            && EndsWith(name, SUFFIX)
            && LedgerLabel(Run1, name) == "manufacture-" + phase + "-run1"
            && LedgerLabel(Run2, name) == "manufacture-" + phase + "-run2"
  {
    var stem := task + "." + phase;
    var name := stem + SUFFIX;
    assert name[|name| - |SUFFIX|..] == SUFFIX && name[..|name| - |SUFFIX|] == stem;
    SplitAppend(task, '.', phase);
    SplitWithoutSeparator(phase, '.');
    assert task + ['.'] + phase == stem;
    assert (Split(task, '.') + [phase])[|Split(task, '.') + [phase]| - 1] == phase;
  }

  predicate Zero(exit: Option<Value>) { exit == Some(Num(0)) }

  ghost predicate SealFinding(doc: Doc, entry: string, ledger: map<string, Option<Value>>, f: SealFault) {
    && f.event in EventsIn(doc) && IsSeal(f.event)
    && match f
       case Mistyped(e) => e.ty != (if Zero(ExitOf(e)) then APPLIED else ABORTED)
       case Uncorroborated(e) => entry !in ledger
       case ExitsDisagree(e, x) => entry in ledger && x == ledger[entry] != ExitOf(e)
  }

  ghost predicate IsSealFault(run: Run, log: Log, v: Violation) {
    v.OfLog? && v.run == run && v.log == log && v.logFault.Seal?
  }

  method CheckSeal(result: Report, run: Run, log: Log, e: Event, entry: string, ledger: map<string, Option<Value>>)
    returns (ghost added: seq<Violation>)
    requires e in EventsIn(log.doc) && IsSeal(e)
    modifies result`violations
    ensures result.violations == old(result.violations) + added
    ensures forall v :: v in added <==>
      IsSealFault(run, log, v) && SealFinding(log.doc, entry, ledger, v.logFault.x) && v.logFault.x.event == e
  {
    added := [];
    var expected := if Zero(ExitOf(e)) then APPLIED else ABORTED;
    if e.ty != expected {
      result.Add(OfLog(run, log, Seal(Mistyped(e))));
      added := added + [OfLog(run, log, Seal(Mistyped(e)))];
    }
    if entry !in ledger {
      result.Add(OfLog(run, log, Seal(Uncorroborated(e))));
      added := added + [OfLog(run, log, Seal(Uncorroborated(e)))];
    } else if ledger[entry] != ExitOf(e) {
      result.Add(OfLog(run, log, Seal(ExitsDisagree(e, ledger[entry]))));
      added := added + [OfLog(run, log, Seal(ExitsDisagree(e, ledger[entry])))];
    }
  }

  /** `check_seal_ledger`. */
  method CheckSealLedger(result: Report, run: Run, log: Log, ledger: map<string, Option<Value>>)
    returns (ghost added: seq<Violation>)
    requires EndsWith(log.name, SUFFIX)
    modifies result`violations
    ensures result.violations == old(result.violations) + added
    ensures forall v :: v in added <==>
      IsSealFault(run, log, v) && SealFinding(log.doc, LedgerLabel(run, log.name), ledger, v.logFault.x)
  {
    var entry, events := LedgerLabel(run, log.name), EventsIn(log.doc);
    added := [];
    for i := 0 to |events|
      invariant result.violations == old(result.violations) + added
      invariant forall v :: v in added <==>
        IsSealFault(run, log, v) && SealFinding(log.doc, entry, ledger, v.logFault.x) &&
          v.logFault.x.event in events[..i]
    {
      TakePush(events, i);
      if IsSeal(events[i]) {
        var more := CheckSeal(result, run, log, events[i], entry, ledger);
        ConcatAssociative(old(result.violations), added, more);
        added := added + more;
      }
    }
    assert events[..|events|] == events;
  }

  // ---------------------------------------------------------------- one log

  ghost predicate LogFinding(run: Run, log: Log, ledger: map<string, Option<Value>>, f: LogFault)
    requires EndsWith(log.name, SUFFIX)
  {
    match f
    case MissingKey(k) =>
      || (k == "eventTypes" && log.doc.eventTypes.None?) || (k == "objectTypes" && log.doc.objectTypes.None?)
      || (k == "events" && log.doc.events.None?) || (k == "objects" && log.doc.objects.None?)
    case Structure(s) => StructureFinding(log.doc, s)
    case Unsealed => forall e :: e in EventsIn(log.doc) ==> !IsSeal(e)
    case Aborted(e) => e in EventsIn(log.doc) && e.ty == ABORTED
    case Seal(x) => ledger != map[] && SealFinding(log.doc, LedgerLabel(run, log.name), ledger, x)
  }

  /** The four keys a document must have, by name. */
  lemma RequiredKeys(run: Run, log: Log, ledger: map<string, Option<Value>>)
    requires EndsWith(log.name, SUFFIX)
    ensures LogFinding(run, log, ledger, MissingKey("eventTypes")) <==> log.doc.eventTypes.None?
    ensures LogFinding(run, log, ledger, MissingKey("objectTypes")) <==> log.doc.objectTypes.None?
    ensures LogFinding(run, log, ledger, MissingKey("events")) <==> log.doc.events.None?
    ensures LogFinding(run, log, ledger, MissingKey("objects")) <==> log.doc.objects.None?
  {
  }

  ghost predicate IsAbout(run: Run, log: Log, v: Violation) {
    v.OfLog? && v.run == run && v.log == log
  }

  method CheckKeys(result: Report, run: Run, log: Log) returns (ghost added: seq<Violation>)
    requires EndsWith(log.name, SUFFIX)
    modifies result`violations
    ensures result.violations == old(result.violations) + added
    ensures forall v :: v in added <==>
      IsAbout(run, log, v) && v.logFault.MissingKey? && LogFinding(run, log, map[], v.logFault)
  {
    added := [];
    var keys := ["eventTypes", "objectTypes", "events", "objects"];
    var missing := [log.doc.eventTypes.None?, log.doc.objectTypes.None?, log.doc.events.None?, log.doc.objects.None?];
    for i := 0 to 4
      invariant result.violations == old(result.violations) + added
      invariant forall v :: v in added <==>
        IsAbout(run, log, v) && v.logFault.MissingKey? &&
        exists j :: 0 <= j < i && v.logFault.key == keys[j] && missing[j]
    {
      if missing[i] {
        result.Add(OfLog(run, log, MissingKey(keys[i])));
        added := added + [OfLog(run, log, MissingKey(keys[i]))];
      }
    }
    assert keys[0] == "eventTypes" && keys[1] == "objectTypes" && keys[2] == "events" && keys[3] == "objects";
  }

  method CheckSealed(result: Report, run: Run, log: Log) returns (ghost added: seq<Violation>)
    requires EndsWith(log.name, SUFFIX)
    modifies result`violations
    ensures result.violations == old(result.violations) + added
    ensures forall v :: v in added <==>
      IsAbout(run, log, v) && (v.logFault.Unsealed? || v.logFault.Aborted?) && LogFinding(run, log, map[], v.logFault)
  {
    added := [];
    var events, sealed := EventsIn(log.doc), false;
    for i := 0 to |events|
      invariant result.violations == old(result.violations)
      invariant sealed <==> exists e :: e in events[..i] && IsSeal(e)
    {
      TakePush(events, i);
      assert forall e :: e in events[..i + 1] <==> e in events[..i] || e == events[i];
      sealed := sealed || IsSeal(events[i]);
    }
    assert events[..|events|] == events;
    if !sealed {
      result.Add(OfLog(run, log, Unsealed));
      added := [OfLog(run, log, Unsealed)];
    }
    ghost var before := added;
    for i := 0 to |events|
      invariant result.violations == old(result.violations) + added
      invariant forall v :: v in added <==>
        || v in before
        || (IsAbout(run, log, v) && v.logFault.Aborted? && v.logFault.event in events[..i] &&
          v.logFault.event.ty == ABORTED)
    {
      if events[i].ty == ABORTED {
        result.Add(OfLog(run, log, Aborted(events[i])));
        added := added + [OfLog(run, log, Aborted(events[i]))];
      }
    }
  }

  /** What the loop in `main` does with one log. */
  method CheckLog(result: Report, run: Run, log: Log, ledger: map<string, Option<Value>>)
    returns (ghost added: seq<Violation>)
    requires EndsWith(log.name, SUFFIX)
    modifies result`violations
    ensures result.violations == old(result.violations) + added
    ensures forall v :: v in added <==> IsAbout(run, log, v) && LogFinding(run, log, ledger, v.logFault)
  {
    var keys := CheckKeys(result, run, log);
    var structure := CheckStructure(result, run, log);
    var sealing := CheckSealed(result, run, log);
    ghost var seals := [];
    if ledger != map[] {
      seals := CheckSealLedger(result, run, log, ledger);
    }
    added := keys + structure + sealing + seals;
  }

  // ---------------------------------------------------------------- what silence means

  /** The log is sealed, and every seal says the run was applied. */
  ghost predicate SealedApplied(doc: Doc) {
    && (exists e :: e in EventsIn(doc) && IsSeal(e))
    && forall e :: e in EventsIn(doc) && IsSeal(e) ==> e.ty == "manufacture_run_applied"
  }

  /** Complete, closed and sealed as applied: what is checked without a ledger. */
  ghost predicate SoundLog(doc: Doc) {
    && doc.eventTypes.Some? && doc.objectTypes.Some? && doc.events.Some? && doc.objects.Some?
    && Closed(doc) && SealedApplied(doc)
  }

  /** Every seal claims exit 0, and so does the ledger entry of the log. */
  ghost predicate Corroborated(run: Run, log: Log, ledger: map<string, Option<Value>>)
    requires EndsWith(log.name, SUFFIX)
  {
    && (forall e :: e in EventsIn(log.doc) && IsSeal(e) ==> LastAttr(e.attrs, "exit", Num(0)))
    && LedgerLabel(run, log.name) in ledger && ledger[LedgerLabel(run, log.name)] == Some(Num(0))
  }

  ghost predicate GoodLog(run: Run, log: Log, ledger: map<string, Option<Value>>)
    requires EndsWith(log.name, SUFFIX)
  {
    SoundLog(log.doc) && Corroborated(run, log, ledger)
  }

  lemma SilentLogCorroborated(run: Run, log: Log, ledger: map<string, Option<Value>>)
    requires EndsWith(log.name, SUFFIX) && ledger != map[]
    requires forall f :: !LogFinding(run, log, ledger, f)
    ensures Corroborated(run, log, ledger)
  {
    var entry := LedgerLabel(run, log.name);
    forall e | e in EventsIn(log.doc) && IsSeal(e)
      ensures LastAttr(e.attrs, "exit", Num(0)) && entry in ledger && ledger[entry] == Some(Num(0))
    {
      AttrMeaning(e.attrs, "exit", Num(0));
      assert !LogFinding(run, log, ledger, Aborted(e));
      assert !LogFinding(run, log, ledger, Seal(Mistyped(e)));
      assert !LogFinding(run, log, ledger, Seal(Uncorroborated(e)));
      if entry in ledger { assert !LogFinding(run, log, ledger, Seal(ExitsDisagree(e, ledger[entry]))); }
    }
    assert !LogFinding(run, log, ledger, Unsealed);
  }

  lemma SilentLogSound(run: Run, log: Log, ledger: map<string, Option<Value>>)
    requires EndsWith(log.name, SUFFIX)
    requires forall f :: !LogFinding(run, log, ledger, f)
    ensures SoundLog(log.doc)
  {
    assert !LogFinding(run, log, ledger, Unsealed);
    forall e | e in EventsIn(log.doc) && IsSeal(e) ensures e.ty == APPLIED {
      assert !LogFinding(run, log, ledger, Aborted(e));
    }
    assert !LogFinding(run, log, ledger, MissingKey("eventTypes"));
    assert !LogFinding(run, log, ledger, MissingKey("objectTypes"));
    assert !LogFinding(run, log, ledger, MissingKey("events"));
    assert !LogFinding(run, log, ledger, MissingKey("objects"));
    forall s ensures !StructureFinding(log.doc, s) { assert !LogFinding(run, log, ledger, Structure(s)); }
    SilenceIsClosure(log.doc);
  }

  lemma SoundLogIsSilent(run: Run, log: Log, ledger: map<string, Option<Value>>, f: LogFault)
    requires EndsWith(log.name, SUFFIX) && SoundLog(log.doc)
    requires ledger != map[] ==> Corroborated(run, log, ledger)
    ensures !LogFinding(run, log, ledger, f)
  {
    if f.Structure? { SilenceIsClosure(log.doc); }
    if f.Seal? { AttrMeaning(f.x.event.attrs, "exit", Num(0)); }
  }

  /** A log is silent exactly when it is complete, closed, sealed as applied and, where the ledger
      labels anything, corroborated. */
  lemma LogSilence(run: Run, log: Log, ledger: map<string, Option<Value>>)
    requires EndsWith(log.name, SUFFIX)
    ensures (forall f :: !LogFinding(run, log, ledger, f)) <==>
            SoundLog(log.doc) && (ledger != map[] ==> Corroborated(run, log, ledger))
  {
    if forall f :: !LogFinding(run, log, ledger, f) {
      SilentLogSound(run, log, ledger);
      if ledger != map[] { SilentLogCorroborated(run, log, ledger); }
    }
    if SoundLog(log.doc) && (ledger != map[] ==> Corroborated(run, log, ledger)) {
      forall f ensures !LogFinding(run, log, ledger, f) { SoundLogIsSilent(run, log, ledger, f); }
    }
  }

  /** With an empty ledger a seal that claims success over a nonzero exit goes unreported. */
  lemma EmptyLedgerSkips(run: Run, f: LogFault)
    ensures var seal := Event("e1", APPLIED, [Attr("exit", Num(7))], []);
            var log := Log("shop.base.ocel.json", Doc(Some([TypeNamed(Some(APPLIED))]), Some([]), Some([seal]),
              Some([])));
            EndsWith(log.name, SUFFIX) && !Zero(ExitOf(seal)) && !LogFinding(run, log, map[], f)
  {
    var seal := Event("e1", APPLIED, [Attr("exit", Num(7))], []);
    var log := Log("shop.base.ocel.json", Doc(Some([TypeNamed(Some(APPLIED))]), Some([]), Some([seal]), Some([])));
    assert log.name[|log.name| - |SUFFIX|..] == SUFFIX;
    assert TypeNamed(Some(APPLIED)) in Or(log.doc.eventTypes, []);
    assert TypeNamed(Some(APPLIED)).name in Declared(log.doc.eventTypes);
    assert EventsIn(log.doc) == [seal] && seal in EventsIn(log.doc);
    SilenceIsClosure(log.doc);
  }
}
