/** The receipt's oracles: when are two artifacts the same, and which oracle failed. */
module Receipt {
  import opened Text

  /** A digest is `None` when the file does not exist. */
  type Digest = Option<string>

  predicate Same(a: Digest, b: Digest) { a.Some? && a == b }

  datatype State = Identical | Differs | Absent(first: bool, second: bool)

  function CompareState(a: Digest, b: Digest): State {
    if a.None? || b.None? then Absent(a.None?, b.None?) else if a == b then Identical else Differs
  }

  /** `same` is a partial equality, and exactly the `identical` of the three-way comparison. */
  lemma SameLaws(a: Digest, b: Digest, c: Digest)
    ensures Same(a, b) <==> Same(b, a)
    ensures Same(a, b) && Same(b, c) ==> Same(a, c)
    ensures Same(a, a) <==> a.Some?
    ensures CompareState(a, b) == Identical <==> Same(a, b)
    ensures CompareState(a, b).Absent? <==> a.None? || b.None?
    ensures CompareState(a, b).Absent? ==> CompareState(a, b) == Absent(a.None?, b.None?)
  {
  }

  // ---------------------------------------------------------------- the check steps

  datatype Step = Step(name: string, exit: int, expected: int)

  predicate IsCheck(s: Step) { StartsWith(s.name, "idempotency-check") }

  lemma CheckLabels(s: Step)
    ensures IsCheck(s) <==> exists rest :: s.name == "idempotency-check" + rest
  {
    PrefixAndRest(s.name, "idempotency-check");
  }

  /** The exit kept for a check label: the dictionary keeps the last one. */
  function KeptExit(steps: seq<Step>, name: string): Option<int> {
    if steps == [] then None
    else
      var last := steps[|steps| - 1];
      if IsCheck(last) && last.name == name then Some(last.exit) else KeptExit(steps[..|steps| - 1], name)
  }

  ghost predicate ChecksClean(steps: seq<Step>) {
    && (exists s :: s in steps && IsCheck(s))
    && forall s :: s in steps && IsCheck(s) ==> KeptExit(steps, s.name) == Some(0)
  }

  method ReadChecks(steps: seq<Step>) returns (clean: bool)
    ensures clean <==> ChecksClean(steps)
  {
    var exits: map<string, int> := map[];
    for i := 0 to |steps|
      invariant forall n :: n in exits <==> KeptExit(steps[..i], n).Some?
      invariant forall n :: n in exits ==> KeptExit(steps[..i], n) == Some(exits[n])
    {
      assert steps[..i + 1][..i] == steps[..i];
      if IsCheck(steps[i]) {
        exits := exits[steps[i].name := steps[i].exit];
      }
    }
    assert steps[..|steps|] == steps;
    forall n ensures n in exits <==> exists s :: s in steps && IsCheck(s) && s.name == n { KeptIffCheck(steps, n); }
    clean := exits != map[] && forall n :: n in exits ==> exits[n] == 0;
    if exits != map[] { var n :| n in exits; }
  }

  lemma {:induction false} KeptIffCheck(steps: seq<Step>, n: string)
    ensures KeptExit(steps, n).Some? <==> exists s :: s in steps && IsCheck(s) && s.name == n
  {
    if steps != [] {
      var last := steps[|steps| - 1];
      KeptIffCheck(steps[..|steps| - 1], n);
      assert forall s :: s in steps <==> s in steps[..|steps| - 1] || s == last;
    }
  }

  /** No check label occurs twice. */
  ghost predicate DistinctChecks(steps: seq<Step>) {
    forall i, j :: 0 <= i < j < |steps| && IsCheck(steps[i]) && IsCheck(steps[j]) ==> steps[i].name != steps[j].name
  }

  lemma {:induction false} DistinctKept(steps: seq<Step>, i: nat)
    requires DistinctChecks(steps) && i < |steps| && IsCheck(steps[i])
    ensures KeptExit(steps, steps[i].name) == Some(steps[i].exit)
  {
    var n := |steps| - 1;
    if i < n {
      assert steps[..n][i] == steps[i];
      DistinctKept(steps[..n], i);
    }
  }

  /** The same labels, exit 1 at `i` and 0 everywhere else. */
  function FailAt(steps: seq<Step>, i: nat): (r: seq<Step>)
    ensures |r| == |steps|
    ensures forall k :: 0 <= k < |r| ==> r[k] == steps[k].(exit := if k == i then 1 else 0)
  {
    seq(|steps|, k requires 0 <= k < |steps| => steps[k].(exit := if k == i then 1 else 0))
  }

  ghost predicate SameLabels(a: seq<Step>, b: seq<Step>) {
    |a| == |b| && forall k :: 0 <= k < |a| ==> a[k].name == b[k].name
  }

  lemma {:induction false} MaskedExit(steps: seq<Step>, j: nat, name: string)
    requires j < |steps| && IsCheck(steps[j]) && steps[j].name == name
    requires forall k :: j <= k < |steps| ==> steps[k].exit == 0
    ensures KeptExit(steps, name) == Some(0)
  {
    var n := |steps| - 1;
    if !(IsCheck(steps[n]) && steps[n].name == name) { MaskedExit(steps[..n], j, name); }
  }

  lemma RepeatedLabelMasks(steps: seq<Step>, i: nat, j: nat)
    requires i < j < |steps| && IsCheck(steps[i]) && IsCheck(steps[j]) && steps[i].name == steps[j].name
    ensures ChecksClean(FailAt(steps, i)) && FailAt(steps, i)[i].exit != 0
  {
    var r := FailAt(steps, i);
    assert r[j] in r && IsCheck(r[j]);
    forall s | s in r && IsCheck(s) ensures KeptExit(r, s.name) == Some(0) {
      var k :| 0 <= k < |r| && r[k] == s;
      if k <= i {
        if k == i { MaskedExit(r, j, s.name); } else { KeptAfter(r, i, k, j, s.name); }
      } else {
        MaskedExit(r, k, s.name);
      }
    }
  }

  /** An exit of 1 at `i` is masked at `j`; every other exit is 0, so 0 is kept for every label. */
  lemma {:induction false} KeptAfter(r: seq<Step>, i: nat, k: nat, j: nat, name: string)
    requires k < i < j < |r| && IsCheck(r[k]) && r[k].name == name
    requires IsCheck(r[i]) && IsCheck(r[j]) && r[i].name == r[j].name
    requires forall x :: 0 <= x < |r| && x != i ==> r[x].exit == 0
    ensures KeptExit(r, name) == Some(0)
  {
    if r[i].name == name {
      MaskedExit(r, j, name);
    } else {
      KeptPast(r, i, k, name);
    }
  }

  lemma {:induction false} KeptPast(r: seq<Step>, i: nat, k: nat, name: string)
    requires k < |r| && IsCheck(r[k]) && r[k].name == name
    requires forall x :: 0 <= x < |r| && x != i ==> r[x].exit == 0
    requires i < |r| ==> r[i].name != name
    ensures KeptExit(r, name) == Some(0)
  {
    var n := |r| - 1;
    if !(IsCheck(r[n]) && r[n].name == name) { KeptPast(r[..n], i, k, name); }
  }

  /** A clean verdict means that every check step exited 0, whatever the exits, if and only if no
      check label is used twice: a later step with the same label masks an earlier failure. */
  lemma CleanNeedsDistinctLabels(steps: seq<Step>)
    ensures DistinctChecks(steps) <==>
            forall t :: SameLabels(t, steps) && ChecksClean(t) ==> forall s :: s in t && IsCheck(s) ==> s.exit == 0
  {
    if DistinctChecks(steps) {
      forall t, s | SameLabels(t, steps) && ChecksClean(t) && s in t && IsCheck(s) ensures s.exit == 0 {
        var i :| 0 <= i < |t| && t[i] == s;
        DistinctKept(t, i);
      }
    } else {
      var i, j :| 0 <= i < j < |steps| && IsCheck(steps[i]) && IsCheck(steps[j]) && steps[i].name == steps[j].name;
      RepeatedLabelMasks(steps, i, j);
      var t := FailAt(steps, i);
      assert SameLabels(t, steps) && t[i] in t && IsCheck(t[i]);
    }
  }

  // ---------------------------------------------------------------- oracles

  datatype Oracle = DbFirst | DbSecond | TreeFirst | TreeSecond
  datatype Artifacts = Artifacts(t1: Digest, t2: Digest, t3: Digest, d1: Digest, d2: Digest, d3: Digest)

  function StateOf(a: Artifacts, o: Oracle): State {
    match o
    case DbFirst => CompareState(a.d1, a.d2)
    case DbSecond => CompareState(a.d2, a.d3)
    case TreeFirst => CompareState(a.t1, a.t2)
    case TreeSecond => CompareState(a.t2, a.t3)
  }

  datatype Failure = CheckFailed | NotExercised(oracle: Oracle) | NotReproduced(oracle: Oracle) | Degenerate(ran: bool)

  ghost predicate NonDegenerate(steps: seq<Step>) {
    && (exists s :: s in steps && s.name == "db-nondegenerate")
    && forall s :: s in steps && s.name == "db-nondegenerate" ==> s.exit == s.expected
  }

  ghost predicate Fails(a: Artifacts, steps: seq<Step>, f: Failure) {
    match f
    case CheckFailed => !ChecksClean(steps)
    case NotExercised(o) => StateOf(a, o).Absent?
    case NotReproduced(o) => StateOf(a, o).Differs?
    case Degenerate(ran) => !NonDegenerate(steps) && (ran <==> exists s :: s in steps && s.name == "db-nondegenerate")
  }

  predicate Missed(a: Digest, b: Digest) { a.None? || b.None? }

  predicate Differing(a: Digest, b: Digest) { a.Some? && b.Some? && a.value != b.value }

  /** Which two artifacts each oracle compares, and what it reports of them. */
  lemma OracleMeaning(a: Artifacts, steps: seq<Step>)
    ensures Fails(a, steps, NotReproduced(TreeFirst)) <==> Differing(a.t1, a.t2)
    ensures Fails(a, steps, NotReproduced(TreeSecond)) <==> Differing(a.t2, a.t3)
    ensures Fails(a, steps, NotReproduced(DbFirst)) <==> Differing(a.d1, a.d2)
    ensures Fails(a, steps, NotReproduced(DbSecond)) <==> Differing(a.d2, a.d3)
    ensures Fails(a, steps, NotExercised(TreeFirst)) <==> Missed(a.t1, a.t2)
    ensures Fails(a, steps, NotExercised(TreeSecond)) <==> Missed(a.t2, a.t3)
    ensures Fails(a, steps, NotExercised(DbFirst)) <==> Missed(a.d1, a.d2)
    ensures Fails(a, steps, NotExercised(DbSecond)) <==> Missed(a.d2, a.d3)
  {
  }

  /** `IDEMPOTENCY_ALIVE`: clean checks, the tree's and the database's three-run fixpoint, and a
      database capture shown to be real. */
  ghost predicate IdempotencyAlive(a: Artifacts, steps: seq<Step>) {
    && ChecksClean(steps)
    && Same(a.t1, a.t2) && Same(a.t2, a.t3)
    && Same(a.d1, a.d2) && Same(a.d2, a.d3) && NonDegenerate(steps)
  }

  method ReadNonDegenerate(steps: seq<Step>) returns (ran: bool, alive: bool)
    ensures ran <==> exists s :: s in steps && s.name == "db-nondegenerate"
    ensures alive <==> NonDegenerate(steps)
  {
    ran := exists s :: s in steps && s.name == "db-nondegenerate";
    alive := ran && forall s :: s in steps && s.name == "db-nondegenerate" ==> s.exit == s.expected;
  }

  /** The failed oracles and the standing: one is empty exactly when the other holds. */
  method Judge(a: Artifacts, steps: seq<Step>) returns (failed: seq<Failure>, alive: bool)
    ensures forall f :: f in failed <==> Fails(a, steps, f)
    ensures alive <==> IdempotencyAlive(a, steps)
    ensures failed == [] <==> alive
  {
    var clean := ReadChecks(steps);
    var ran, nonDegenerate := ReadNonDegenerate(steps);
    failed := if clean then [] else [CheckFailed];
    ghost var before := failed;
    var oracles := [DbFirst, DbSecond, TreeFirst, TreeSecond];
    for i := 0 to |oracles|
      invariant forall f :: f in failed <==>
        f in before || ((f.NotExercised? || f.NotReproduced?) && f.oracle in oracles[..i] && Fails(a, steps, f))
    {
      TakePush(oracles, i);
      match StateOf(a, oracles[i]) {
        case Identical =>
        case Absent(_, _) => failed := failed + [NotExercised(oracles[i])];
        case Differs => failed := failed + [NotReproduced(oracles[i])];
      }
    }
    assert oracles[..|oracles|] == oracles;
    forall o: Oracle ensures o in oracles {
      match o
      case DbFirst => assert oracles[0] == o;
      case DbSecond => assert oracles[1] == o;
      case TreeFirst => assert oracles[2] == o;
      case TreeSecond => assert oracles[3] == o;
    }
    if !nonDegenerate {
      failed := failed + [Degenerate(ran)];
    }
    alive := clean && Same(a.t1, a.t2) && Same(a.t2, a.t3) && Same(a.d1, a.d2) && Same(a.d2, a.d3) && nonDegenerate;
    OraclesAgree(a, steps);
    EmptyOrInhabited(failed);
  }

  lemma OraclesAgree(a: Artifacts, steps: seq<Step>)
    ensures (forall f :: !Fails(a, steps, f)) <==> IdempotencyAlive(a, steps)
    ensures IdempotencyAlive(a, steps) ==> Same(a.t1, a.t3) && Same(a.d1, a.d3)
  {
    if forall f :: !Fails(a, steps, f) {
      assert !Fails(a, steps, CheckFailed);
      assert !Fails(a, steps, Degenerate(true)) && !Fails(a, steps, Degenerate(false));
      forall o ensures StateOf(a, o) == Identical {
        assert !Fails(a, steps, NotExercised(o)) && !Fails(a, steps, NotReproduced(o));
      }
      assert StateOf(a, DbFirst) == StateOf(a, DbSecond) == Identical;
      assert StateOf(a, TreeFirst) == StateOf(a, TreeSecond) == Identical;
    }
  }

  /** A database capture that was not shown to be real denies the standing: the step is missing, or
      one of its runs did not exit as expected. */
  lemma CaptureMustBeReal(a: Artifacts, steps: seq<Step>)
    requires (forall s :: s in steps ==> s.name != "db-nondegenerate") ||
             exists s :: s in steps && s.name == "db-nondegenerate" && s.exit != s.expected
    ensures !IdempotencyAlive(a, steps)
    ensures exists ran :: Fails(a, steps, Degenerate(ran))
  {
    var ran := exists s :: s in steps && s.name == "db-nondegenerate";
    assert Fails(a, steps, Degenerate(ran));
  }
}
