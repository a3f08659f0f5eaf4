/** What the two scanners find in a literal: every match there is, and so every citation that is
    printed in it. */
module EvidenceTheorems {
  import opened Text
  import opened Evidence
  import opened EvidenceCheck

  // ---------------------------------------------------------------- all matches

  /** The position lies inside a mark. */
  ghost predicate Covered(marks: seq<Mark>, k: nat) {
    exists m :: m in marks && m.start <= k < m.end
  }

  lemma CoveredTail(m: Mark, rest: seq<Mark>, k: nat)
    requires Covered(rest, k)
    ensures Covered([m] + rest, k)
  {
    var x :| x in rest && x.start <= k < x.end;
    assert x in [m] + rest;
  }

  /** Wherever the citation pattern matches, a mark is. */
  lemma {:induction false} PathsAreCovered(s: string, i: nat, k: nat)
    requires i <= k < |s| && PathAt(s, k).Some?
    ensures Covered(PathMarks(s, i), k)
    decreases |s| - i
  {
    var m := PathAt(s, i);
    if m.Some? {
      if k < m.value.end {
        assert m.value in PathMarks(s, i);
      } else {
        PathsAreCovered(s, m.value.end, k);
        CoveredTail(m.value, PathMarks(s, m.value.end), k);
      }
    } else {
      PathsAreCovered(s, i + 1, k);
    }
  }

  lemma {:induction false} ContinuationsAreCovered(s: string, i: nat, k: nat)
    requires i <= k < |s| && ContAt(s, k).Some?
    ensures Covered(ContMarks(s, i), k)
    decreases |s| - i
  {
    var m := ContAt(s, i);
    if m.Some? {
      if k < m.value.end {
        assert m.value in ContMarks(s, i);
      } else {
        ContinuationsAreCovered(s, m.value.end, k);
        CoveredTail(m.value, ContMarks(s, m.value.end), k);
      }
    } else {
      ContinuationsAreCovered(s, i + 1, k);
    }
  }

  lemma {:induction false} PathMarksMatch(s: string, i: nat, m: Mark)
    requires m in PathMarks(s, i)
    ensures i <= m.start < |s| && PathAt(s, m.start) == Some(m)
    decreases |s| - i
  {
    var first := PathAt(s, i);
    if first.Some? {
      if m != first.value { PathMarksMatch(s, first.value.end, m); }
    } else {
      PathMarksMatch(s, i + 1, m);
    }
  }

  lemma {:induction false} ContMarksMatch(s: string, i: nat, m: Mark)
    requires m in ContMarks(s, i)
    ensures i <= m.start < |s| && ContAt(s, m.start) == Some(m)
    decreases |s| - i
  {
    var first := ContAt(s, i);
    if first.Some? {
      if m != first.value { ContMarksMatch(s, first.value.end, m); }
    } else {
      ContMarksMatch(s, i + 1, m);
    }
  }

  /** The mark starts inside another one. */
  ghost predicate StartsInside(m: Mark, marks: seq<Mark>) {
    exists x :: x in marks && x.start < m.start < x.end
  }

  lemma InOrderApart(marks: seq<Mark>, x: Mark, m: Mark)
    requires InTextOrder(marks) && x in marks && m in marks
    ensures !(x.start < m.start < x.end)
  {
  }

  lemma PathMarkHere(s: string, k: nat)
    requires k < |s| && PathAt(s, k).Some?
    requires forall x :: x in PathMarks(s, 0) ==> !(x.start < k < x.end)
    ensures PathAt(s, k).value in PathMarks(s, 0)
  {
    PathsAreCovered(s, 0, k);
    var x :| x in PathMarks(s, 0) && x.start <= k < x.end;
    PathMarksMatch(s, 0, x);
  }

  lemma ContMarkHere(s: string, k: nat)
    requires k < |s| && ContAt(s, k).Some?
    requires forall x :: x in ContMarks(s, 0) ==> !(x.start < k < x.end)
    ensures ContAt(s, k).value in ContMarks(s, 0)
  {
    ContinuationsAreCovered(s, 0, k);
    var x :| x in ContMarks(s, 0) && x.start <= k < x.end;
    ContMarksMatch(s, 0, x);
  }

  /** The path marks are exactly the matches of the citation pattern that start inside no other
      mark: the leftmost matches, none left out. */
  lemma PathMarksAreMatches(s: string, m: Mark)
    ensures m in PathMarks(s, 0) <==>
            m.start < |s| && PathAt(s, m.start) == Some(m) && !StartsInside(m, PathMarks(s, 0))
  {
    if m in PathMarks(s, 0) {
      PathMarksMatch(s, 0, m);
      PathMarksInOrder(s, 0);
      NotInside(PathMarks(s, 0), m);
    } else if m.start < |s| && PathAt(s, m.start) == Some(m) && !StartsInside(m, PathMarks(s, 0)) {
      PathMarkHere(s, m.start);
    }
  }

  lemma NotInside(marks: seq<Mark>, m: Mark)
    requires InTextOrder(marks) && m in marks
    ensures !StartsInside(m, marks)
  {
    if x :| x in marks && x.start < m.start < x.end { InOrderApart(marks, x, m); }
  }

  /** The same for the continuations. */
  lemma ContMarksAreMatches(s: string, m: Mark)
    ensures m in ContMarks(s, 0) <==>
            m.start < |s| && ContAt(s, m.start) == Some(m) && !StartsInside(m, ContMarks(s, 0))
  {
    if m in ContMarks(s, 0) {
      ContMarksMatch(s, 0, m);
      ContMarksInOrder(s, 0);
      NotInside(ContMarks(s, 0), m);
    } else if m.start < |s| && ContAt(s, m.start) == Some(m) && !StartsInside(m, ContMarks(s, 0)) {
      ContMarkHere(s, m.start);
    }
  }

  // ---------------------------------------------------------------- printed continuations

  /** A printed range is read as a continuation, except right behind a path character. */
  lemma ContinuationRead(s: string, i: nat, first: string, last: Option<string>, e: nat)
    requires Digits(first) && (last.Some? ==> Digits(last.value))
    requires At(s, i, PrintRange(first, last)) && e == i + |PrintRange(first, last)| && EndsRange(s, e, last)
    ensures ContAt(s, i) == if i > 0 && IsPathChar(s[i - 1]) then None else Some(ContMark(i, e, Some(first), last))
  {
    RangeRead(s, i, first, last);
  }

  // ---------------------------------------------------------------- no mark runs over a separator

  predicate Separates(c: char) { !IsPathChar(c) && c != ':' }

  lemma {:induction false} PathRunChars(s: string, i: nat, k: nat)
    requires i <= |s| && i <= k < PathRun(s, i)
    ensures IsPathChar(s[k])
    decreases |s| - i
  {
    if k > i { PathRunChars(s, i + 1, k); }
  }

  lemma RangeChars(s: string, end: nat, k: nat)
    requires end <= |s| && RangeAt(s, end).Range? && end <= k < RangeAt(s, end).end
    ensures !Separates(s[k])
  {
    RangeText(s, end, k);
  }

  lemma ExtensionChars(s: string, dot: nat, ext: string, k: nat)
    requires FirstAlternative(s, dot + 1, EXTENSIONS) == Some(ext) && dot < k <= dot + |ext| < |s|
    ensures IsPathChar(s[k])
  {
    AlternativeFits(s, dot + 1, EXTENSIONS);
    AtWord(s, dot + 1, ext);
    TakenIsExtension(s, dot + 1, EXTENSIONS);
    assert s[dot + 1 + (k - dot - 1)] == ext[k - dot - 1];
    assert IsPathChar(ext[k - dot - 1]);
  }

  lemma {:induction false} TakenIsExtension(s: string, i: nat, alternatives: seq<string>)
    requires FirstAlternative(s, i, alternatives).Some?
    ensures FirstAlternative(s, i, alternatives).value in alternatives
  {
    if !At(s, i, alternatives[0]) { TakenIsExtension(s, i, alternatives[1..]); }
  }

  lemma DirectoryChars(s: string, i: nat, k: nat)
    requires At(s, i, "deps/") && i <= k < i + 5
    ensures IsPathChar(s[k])
  {
    AtWord(s, i, "deps/");
    assert s[i + (k - i)] == "deps/"[k - i];
  }

  lemma OverDotChars(s: string, i: nat, dot: nat, k: nat)
    requires i < dot && ExtensionDot(s, dot) && dot < k < PathOver(s, i, dot).end
    ensures !Separates(s[k])
  {
    AlternativeFits(s, dot + 1, EXTENSIONS);
    var ext := FirstAlternative(s, dot + 1, EXTENSIONS).value;
    if k <= dot + |ext| {
      ExtensionChars(s, dot, ext, k);
    } else {
      RangeChars(s, dot + 1 + |ext|, k);
    }
  }

  /** A path mark holds path characters and the colon of its range only. */
  lemma PathMarkChars(s: string, i: nat, k: nat)
    requires PathAt(s, i).Some? && i <= k < PathAt(s, i).value.end
    ensures !Separates(s[k])
  {
    var dot := LastDot(s, i + 6, PathRun(s, i + 5)).value;
    if k < i + 5 {
      DirectoryChars(s, i, k);
    } else if k <= dot {
      PathRunChars(s, i + 5, k);
    } else {
      OverDotChars(s, i, dot, k);
    }
  }

  lemma ContMarkChars(s: string, i: nat, k: nat)
    requires i <= |s| && ContAt(s, i).Some? && i <= k < ContAt(s, i).value.end
    ensures !Separates(s[k])
  {
    RangeText(s, i, k);
  }

  // ---------------------------------------------------------------- every printed citation is found

  /** The literal holds this citation, with this range, at `i`, set apart from what precedes it. */
  ghost predicate CitesAt(s: string, i: nat, body: string, ext: string, first: string, last: Option<string>) {
    && PathText(body) && ext in EXTENSIONS && ext != "exs" && Digits(first) && (last.Some? ==> Digits(last.value))
    && At(s, i, Cited(body, ext)) && At(s, i + |Cited(body, ext)|, PrintRange(first, last))
    && EndsRange(s, i + |Cited(body, ext)| + |PrintRange(first, last)|, last)
    && (i == 0 || Separates(s[i - 1]))
  }

  function CitationMark(i: nat, body: string, ext: string, first: string, last: Option<string>): Mark {
    PathMark(i, i + |Cited(body, ext)| + |PrintRange(first, last)|, Cited(body, ext), Some(first), last)
  }

  lemma CitationMatches(s: string, i: nat, body: string, ext: string, first: string, last: Option<string>)
    requires CitesAt(s, i, body, ext, first, last)
    ensures PathAt(s, i) == Some(CitationMark(i, body, ext, first, last))
  {
    var n := i + |Cited(body, ext)|;
    CitationRead(s, i, body, ext, first, last, n, n + |PrintRange(first, last)|);
  }

  /** Nothing runs over the character that sets a citation apart. */
  lemma NoPathOver(s: string, i: nat, x: Mark)
    requires 0 < i <= |s| && Separates(s[i - 1]) && x in PathMarks(s, 0)
    ensures !(x.start < i < x.end)
  {
    PathMarksMatch(s, 0, x);
    if x.start < i < x.end { PathMarkChars(s, x.start, i - 1); }
  }

  /** It is one of the path marks. */
  lemma CitationIsMarked(s: string, i: nat, body: string, ext: string, first: string, last: Option<string>)
    requires CitesAt(s, i, body, ext, first, last)
    ensures CitationMark(i, body, ext, first, last) in PathMarks(s, 0)
  {
    CitationMatches(s, i, body, ext, first, last);
    forall x | x in PathMarks(s, 0) ensures !(x.start < i < x.end) {
      if i > 0 { NoPathOver(s, i, x); }
    }
    PathMarkHere(s, i);
  }

  lemma BoundAtPath(marks: seq<Mark>, refs: seq<Ref>, k: nat)
    requires Binds(marks, refs) && k < |marks| && marks[k].PathMark?
    ensures Ref(marks[k].path, marks[k].first, marks[k].last) in refs
  {
    var n := FirstPath(marks);
    assert n <= k;
    assert refs[k - n] == Ref(Nearest(marks, n + (k - n)), marks[n + (k - n)].first, marks[n + (k - n)].last);
  }

  /** Every citation printed in a literal and set apart is among its references, however many there
      are. */
  lemma CitationIsReference(s: string, i: nat, body: string, ext: string, first: string, last: Option<string>,
                            refs: seq<Ref>)
    requires CitesAt(s, i, body, ext, first, last) && ReferencesOf(s, refs)
    ensures Ref(Cited(body, ext), Some(first), last) in refs
  {
    var marks: seq<Mark> :| AreMarksOf(s, marks) && Binds(marks, refs);
    var mark := CitationMark(i, body, ext, first, last);
    CitationIsMarked(s, i, body, ext, first, last);
    assert IsMarkOf(s, mark);
    var k :| 0 <= k < |marks| && marks[k] == mark;
    BoundAtPath(marks, refs, k);
  }

  // ---------------------------------------------------------------- every printed continuation is bound

  /** The literal holds this range at `j`, set apart from what precedes it. */
  ghost predicate ContinuesAt(s: string, j: nat, first: string, last: Option<string>) {
    && Digits(first) && (last.Some? ==> Digits(last.value)) && At(s, j, PrintRange(first, last))
    && EndsRange(s, j + |PrintRange(first, last)|, last) && (j == 0 || Separates(s[j - 1]))
  }

  lemma ContinuationMatches(s: string, j: nat, first: string, last: Option<string>)
    requires ContinuesAt(s, j, first, last)
    ensures j < |s| && s[j] == ':'
    ensures ContAt(s, j) == Some(ContMark(j, j + |PrintRange(first, last)|, Some(first), last))
  {
    ContinuationRead(s, j, first, last, j + |PrintRange(first, last)|);
    assert s[j..j + |PrintRange(first, last)|][0] == PrintRange(first, last)[0];
  }

  lemma NoContinuationOver(s: string, j: nat, x: Mark)
    requires 0 < j <= |s| && Separates(s[j - 1]) && x in ContMarks(s, 0)
    ensures !(x.start < j < x.end)
  {
    ContMarksMatch(s, 0, x);
    if x.start < j < x.end { ContMarkChars(s, x.start, j - 1); }
  }

  lemma ContinuationIsMarked(s: string, j: nat, first: string, last: Option<string>)
    requires ContinuesAt(s, j, first, last)
    ensures IsMarkOf(s, ContMark(j, j + |PrintRange(first, last)|, Some(first), last))
  {
    ContinuationMatches(s, j, first, last);
    forall x | x in ContMarks(s, 0) ensures !(x.start < j < x.end) {
      if j > 0 { NoContinuationOver(s, j, x); }
    }
    ContMarkHere(s, j);
    forall x | x in PathMarks(s, 0) ensures !(x.start <= j < x.end) {
      PathMarksMatch(s, 0, x);
      if j > 0 { NoPathOver(s, j, x); }
    }
  }

  lemma {:induction false} NearestOf(marks: seq<Mark>, a: nat, b: nat)
    requires a <= b < |marks| && marks[a].PathMark? && forall k :: a < k <= b ==> marks[k].ContMark?
    ensures FirstPath(marks) <= a && Nearest(marks, b) == marks[a].path
    decreases b
  {
    if a < b { NearestOf(marks, a, b - 1); }
  }

  lemma OnlyContinuationsBetween(s: string, marks: seq<Mark>, a: nat, b: nat, k: nat)
    requires AreMarksOf(s, marks) && a < k < b < |marks|
    requires forall p :: marks[a].end <= p < marks[b].start ==> PathAt(s, p).None?
    ensures marks[k].ContMark?
  {
    assert marks[k] in marks && IsMarkOf(s, marks[k]);
    if marks[k] in PathMarks(s, 0) { PathMarksMatch(s, 0, marks[k]); }
    if marks[k] in ContMarks(s, 0) { ContMarksInOrder(s, 0); }
  }

  lemma BoundBehind(s: string, marks: seq<Mark>, refs: seq<Ref>, path: Mark, cont: Mark)
    requires AreMarksOf(s, marks) && Binds(marks, refs) && path in marks && cont in marks
    requires path.PathMark? && cont.ContMark? && path.end <= cont.start
    requires forall p :: path.end <= p < cont.start ==> PathAt(s, p).None?
    ensures Ref(path.path, cont.first, cont.last) in refs
  {
    var a :| 0 <= a < |marks| && marks[a] == path;
    var b :| 0 <= b < |marks| && marks[b] == cont;
    assert a < b;
    forall k | a < k < b ensures marks[k].ContMark? { OnlyContinuationsBetween(s, marks, a, b, k); }
    NearestOf(marks, a, b);
    BoundAt(marks, refs, b);
  }

  /** A continuation printed behind a citation, with no other path between the two, is a reference
      into the same file. */
  lemma ContinuationIsReference(s: string, i: nat, body: string, ext: string, first: string, last: Option<string>,
                                j: nat, first': string, last': Option<string>, refs: seq<Ref>)
    requires CitesAt(s, i, body, ext, first, last) && ContinuesAt(s, j, first', last') && ReferencesOf(s, refs)
    requires CitationMark(i, body, ext, first, last).end <= j
    requires forall p :: CitationMark(i, body, ext, first, last).end <= p < j ==> PathAt(s, p).None?
    ensures Ref(Cited(body, ext), Some(first'), last') in refs
  {
    var marks: seq<Mark> :| AreMarksOf(s, marks) && Binds(marks, refs);
    CitationIsMarked(s, i, body, ext, first, last);
    ContinuationIsMarked(s, j, first', last');
    var path := CitationMark(i, body, ext, first, last);
    assert IsMarkOf(s, path);
    BoundBehind(s, marks, refs, path, ContMark(j, j + |PrintRange(first', last')|, Some(first'), last'));
  }

  lemma BoundAt(marks: seq<Mark>, refs: seq<Ref>, k: nat)
    requires Binds(marks, refs) && FirstPath(marks) <= k < |marks|
    ensures Ref(Nearest(marks, k), marks[k].first, marks[k].last) in refs
  {
    var n := FirstPath(marks);
    assert refs[k - n] == Ref(Nearest(marks, n + (k - n)), marks[n + (k - n)].first, marks[n + (k - n)].last);
  }

  // ---------------------------------------------------------------- line numbers

  /** A number in decimal. */
  function Decimal(n: nat): (d: string)
    ensures d != ""
  {
    var digit := [('0' as int + n % 10) as char];
    if n < 10 then digit else Decimal(n / 10) + digit
  }

  /** The line numbers of a citation are read in base ten. */
  lemma {:induction false} NumberOfDecimal(n: nat)
    ensures Number(Decimal(n)) == n && Digits(Decimal(n))
  {
    var digit := [('0' as int + n % 10) as char];
    assert Number(digit) == n % 10 by { assert digit[..0] == ""; }
    if n >= 10 {
      NumberOfDecimal(n / 10);
      var d := Decimal(n / 10) + digit;
      assert d[|d| - 1] == digit[0] && d[..|d| - 1] == Decimal(n / 10);
    }
  }

  /** What is wrong with a reference: its file is missing, or an admitted capability cites the file
      whole, or its lines are not all in the file; nothing else is. */
  lemma JudgeMeaning(admitted: bool, files: map<string, nat>, path: string, first: Option<nat>, last: Option<nat>)
    requires last.Some? ==> first.Some?
    ensures var r := Ref(path, if first.Some? then Some(Decimal(first.value)) else None,
                         if last.Some? then Some(Decimal(last.value)) else None);
            var high := if last.Some? then last else first;
            && (Judge(admitted, files, r) == Some(Dangling) <==> path !in files)
            && (path in files && first.None? ==>
                 Judge(admitted, files, r) == if admitted then Some(CitedWhole(files[path])) else None)
            && (path in files && first.Some? ==>
                 Judge(admitted, files, r) == if 1 <= first.value && high.value <= files[path] then None
                                              else Some(OutOfRange(first.value, high.value, files[path])))
  {
    if first.Some? { NumberOfDecimal(first.value); }
    if last.Some? { NumberOfDecimal(last.value); }
  }

  // ---------------------------------------------------------------- what the check says about them

  /** When all references resolve, every citation printed in the evidence names a file that has its
      lines. */
  lemma PrintedCitationsResolve(capabilities: seq<Capability>, files: map<string, nat>, c: Capability, s: string,
                                i: nat, body: string, ext: string, first: string, last: Option<string>, refs: seq<Ref>)
    requires AllResolve(capabilities, files) && c in capabilities && s in c.evidence && ReferencesOf(s, refs)
    requires CitesAt(s, i, body, ext, first, last)
    ensures Cited(body, ext) in files
    ensures 1 <= Number(first) && Number(Or(last, first)) <= files[Cited(body, ext)]
  {
    CitationIsReference(s, i, body, ext, first, last, refs);
    var r := Ref(Cited(body, ext), Some(first), last);
    assert IsReference(s, r);
    assert FirstLine(r) == Number(first) && LastLine(r) == Number(Or(last, first));
  }

  /** A citation printed in the evidence whose file is not there is reported. */
  lemma MissingFileIsReported(capabilities: seq<Capability>, files: map<string, nat>, c: Capability, s: string, i: nat,
                              body: string, ext: string, first: string, last: Option<string>, refs: seq<Ref>)
    requires c in capabilities && s in c.evidence && ReferencesOf(s, refs)
    requires CitesAt(s, i, body, ext, first, last) && Cited(body, ext) !in files
    ensures IsProblem(capabilities, files, Problem(c, s, Ref(Cited(body, ext), Some(first), last), Dangling))
    ensures !AllResolve(capabilities, files)
  {
    CitationIsReference(s, i, body, ext, first, last, refs);
    assert IsReference(s, Ref(Cited(body, ext), Some(first), last));
  }
}
