/** The line-range floor over all references of all capabilities. */
module EvidenceCheck {
  import opened Text
  import opened Evidence

  datatype Capability = Capability(task: string, admitted: bool, evidence: seq<string>)

  datatype Kind = Dangling | CitedWhole(lines: nat) | OutOfRange(first: nat, last: nat, lines: nat)
  datatype Problem = Problem(capability: Capability, literal: string, ref: Ref, kind: Kind)

  // ---------------------------------------------------------------- the references of a literal

  lemma SameHead(a: seq<Mark>, b: seq<Mark>)
    requires InTextOrder(a) && InTextOrder(b) && a != [] && b != []
    requires a[0] in b && b[0] in a
    ensures a[0] == b[0]
  {
  }

  lemma TailInOrder(a: seq<Mark>)
    requires InTextOrder(a) && a != []
    ensures InTextOrder(a[1..]) && a[0] !in a[1..] && a == [a[0]] + a[1..]
  {
  }

  lemma SameTails(a: seq<Mark>, b: seq<Mark>)
    requires a != [] && b != [] && a[0] == b[0] && a[0] !in a[1..] && b[0] !in b[1..]
    requires forall m :: m in a <==> m in b
    ensures forall m :: m in a[1..] <==> m in b[1..]
  {
    InHeadOrTail(a);
    InHeadOrTail(b);
  }

  lemma InHeadOrTail(a: seq<Mark>)
    requires a != [] && a[0] !in a[1..]
    ensures forall m :: m in a[1..] <==> m in a && m != a[0]
  {
    assert a == [a[0]] + a[1..];
  }

  lemma {:induction false} TextOrderUnique(a: seq<Mark>, b: seq<Mark>)
    requires InTextOrder(a) && InTextOrder(b)
    requires forall m :: m in a <==> m in b
    ensures a == b
  {
    EmptyOrInhabited(a);
    EmptyOrInhabited(b);
    if a != [] {
      assert a[0] in b && b[0] in a;
      SameHead(a, b);
      TailInOrder(a);
      TailInOrder(b);
      SameTails(a, b);
      TextOrderUnique(a[1..], b[1..]);
    }
  }

  /** A literal has one list of references. */
  lemma ReferencesUnique(s: string, refs: seq<Ref>, refs': seq<Ref>)
    requires ReferencesOf(s, refs) && ReferencesOf(s, refs')
    ensures refs == refs'
  {
    var marks :| AreMarksOf(s, marks) && Binds(marks, refs);
    var marks' :| AreMarksOf(s, marks') && Binds(marks', refs');
    TextOrderUnique(marks, marks');
  }

  ghost predicate IsReference(s: string, r: Ref) {
    exists refs :: ReferencesOf(s, refs) && r in refs
  }

  // ---------------------------------------------------------------- the floor

  /** `int` of a run of digits. */
  function Number(digits: string): nat {
    if digits == "" then 0
    else
      var d := digits[|digits| - 1];
      10 * Number(digits[..|digits| - 1]) + (if IsDigit(d) then d as int - '0' as int else 0)
  }

  function FirstLine(r: Ref): nat { Number(Or(r.first, "")) }
  function LastLine(r: Ref): nat { Number(Or(r.last, Or(r.first, ""))) }

  /** What is wrong with one reference of an admitted or not admitted capability. */
  function Judge(admitted: bool, files: map<string, nat>, r: Ref): Option<Kind> {
    if r.path !in files then Some(Dangling)
    else if r.first.None? then (if admitted then Some(CitedWhole(files[r.path])) else None)
    else if FirstLine(r) < 1 || LastLine(r) > files[r.path] then
      Some(OutOfRange(FirstLine(r), LastLine(r), files[r.path]))
    else None
  }

  ghost predicate IsProblem(capabilities: seq<Capability>, files: map<string, nat>, p: Problem) {
    && p.capability in capabilities && p.literal in p.capability.evidence && IsReference(p.literal, p.ref)
    && Judge(p.capability.admitted, files, p.ref) == Some(p.kind)
  }

  method CheckLiteral(c: Capability, literal: string, files: map<string, nat>) returns (problems: seq<Problem>)
    ensures forall p :: p in problems <==>
      p.capability == c && p.literal == literal && IsReference(literal, p.ref) &&
      Judge(c.admitted, files, p.ref) == Some(p.kind)
  {
    var refs := References(literal);
    problems := [];
    for i := 0 to |refs|
      invariant forall p :: p in problems <==>
        p.capability == c && p.literal == literal && p.ref in refs[..i] &&
          Judge(c.admitted, files, p.ref) == Some(p.kind)
    {
      TakePush(refs, i);
      var kind := Judge(c.admitted, files, refs[i]);
      if kind.Some? {
        problems := problems + [Problem(c, literal, refs[i], kind.value)];
      }
    }
    assert refs[..|refs|] == refs;
    forall r ensures r in refs <==> IsReference(literal, r) {
      if all :| ReferencesOf(literal, all) && r in all { ReferencesUnique(literal, refs, all); }
    }
  }

  method CheckCapability(c: Capability, files: map<string, nat>) returns (problems: seq<Problem>)
    ensures forall p :: p in problems <==> p.capability == c && IsProblem([c], files, p)
  {
    problems := [];
    for i := 0 to |c.evidence|
      invariant forall p :: p in problems <==>
        p.capability == c && p.literal in c.evidence[..i] && IsReference(p.literal, p.ref) &&
        Judge(c.admitted, files, p.ref) == Some(p.kind)
    {
      TakePush(c.evidence, i);
      var more := CheckLiteral(c, c.evidence[i], files);
      problems := problems + more;
    }
    assert c.evidence[..|c.evidence|] == c.evidence;
  }

  /** `main`: exactly the problems of all references; `all_resolve` is their absence. */
  method Check(capabilities: seq<Capability>, files: map<string, nat>)
    returns (problems: seq<Problem>, allResolve: bool)
    ensures forall p :: p in problems <==> IsProblem(capabilities, files, p)
    ensures allResolve <==> AllResolve(capabilities, files)
  {
    problems := [];
    for i := 0 to |capabilities|
      invariant forall p :: p in problems <==> IsProblem(capabilities[..i], files, p)
    {
      TakePush(capabilities, i);
      var more := CheckCapability(capabilities[i], files);
      problems := problems + more;
    }
    assert capabilities[..|capabilities|] == capabilities;
    allResolve := problems == [];
    EmptyOrInhabited(problems);
    NoProblemMeansResolved(capabilities, files);
  }

  /** Every reference names an existing file; a ranged one stays inside it; only a capability that
      is not admitted cites a file whole. */
  ghost predicate AllResolve(capabilities: seq<Capability>, files: map<string, nat>) {
    forall c, literal, r :: c in capabilities && literal in c.evidence && IsReference(literal, r) ==>
      && r.path in files
      && (r.first.None? ==> !c.admitted)
      && (r.first.Some? ==> 1 <= FirstLine(r) && LastLine(r) <= files[r.path])
  }

  lemma NoProblemMeansResolved(capabilities: seq<Capability>, files: map<string, nat>)
    ensures (forall p :: !IsProblem(capabilities, files, p)) <==> AllResolve(capabilities, files)
  {
    if forall p :: !IsProblem(capabilities, files, p) {
      forall c, literal, r | c in capabilities && literal in c.evidence && IsReference(literal, r)
        ensures Judge(c.admitted, files, r).None?
      {
        var kind := Judge(c.admitted, files, r);
        if kind.Some? { assert IsProblem(capabilities, files, Problem(c, literal, r, kind.value)); }
      }
    }
  }
}
