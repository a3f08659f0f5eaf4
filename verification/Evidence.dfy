/** The evidence check: file references inside `amp:evidence` prose, found by two scanners,
    merged into text order, and each bare `:NNN` bound to the nearest preceding path. */
module Evidence {
  import opened Text

  // ---------------------------------------------------------------- character classes

  predicate IsPathChar(c: char) { IsWordChar(c) || c == '.' || c == '/' || c == '-' }

  /** The end of the longest run of path characters from `i` on. */
  function PathRun(s: string, i: nat): (e: nat)
    requires i <= |s|
    ensures i <= e <= |s|
    decreases |s| - i
  {
    if i < |s| && IsPathChar(s[i]) then PathRun(s, i + 1) else i
  }

  function DigitRun(s: string, i: nat): (e: nat)
    requires i <= |s|
    ensures i <= e <= |s|
    decreases |s| - i
  {
    if i < |s| && IsDigit(s[i]) then DigitRun(s, i + 1) else i
  }

  // ---------------------------------------------------------------- marks

  datatype Mark =
    | PathMark(start: nat, end: nat, path: string, first: Option<string>, last: Option<string>)
    | ContMark(start: nat, end: nat, first: Option<string>, last: Option<string>)

  /** `:(\d+)(?:-(\d+))?` at position `i`: the two groups and where the match ends. */
  datatype Range = NoRange | Range(first: string, last: Option<string>, end: nat)

  function RangeAt(s: string, i: nat): (r: Range)
    requires i <= |s|
    ensures r.Range? ==> i < r.end <= |s| && r.first != "" && r.last != Some("")
  {
    if i < |s| && s[i] == ':' && DigitRun(s, i + 1) > i + 1 then
      var e := DigitRun(s, i + 1);
      if e < |s| && s[e] == '-' && DigitRun(s, e + 1) > e + 1 then
        Range(s[i + 1..e], Some(s[e + 1..DigitRun(s, e + 1)]), DigitRun(s, e + 1))
      else Range(s[i + 1..e], None, e)
    else NoRange
  }

  lemma {:induction false} DigitRunDigits(s: string, i: nat, k: nat)
    requires i <= |s| && i <= k < DigitRun(s, i)
    ensures IsDigit(s[k])
    decreases |s| - i
  {
    if k > i { DigitRunDigits(s, i + 1, k); }
  }

  /** A range holds digits, its colon and its dash only. */
  lemma RangeText(s: string, i: nat, k: nat)
    requires i <= |s| && RangeAt(s, i).Range? && i <= k < RangeAt(s, i).end
    ensures IsDigit(s[k]) || s[k] == ':' || s[k] == '-'
  {
    var e := DigitRun(s, i + 1);
    if i < k < e { DigitRunDigits(s, i + 1, k); }
    if e < k { DigitRunDigits(s, e + 1, k); }
  }

  /** The alternatives of the extension group, in the order they are tried. */
  const EXTENSIONS: seq<string> := ["ex", "exs", "erl", "rs"]

  /** The first alternative that matches; what follows the group never makes it try another. */
  function FirstAlternative(s: string, i: nat, alternatives: seq<string>): Option<string> {
    if alternatives == [] then None
    else if At(s, i, alternatives[0]) then Some(alternatives[0])
    else FirstAlternative(s, i, alternatives[1..])
  }

  /** A dot at `p` followed by an extension. */
  predicate ExtensionDot(s: string, p: nat) {
    p < |s| && s[p] == '.' && FirstAlternative(s, p + 1, EXTENSIONS).Some?
  }

  /** The last extension dot in `lo..hi`: where the greedy path stops backtracking. */
  function LastDot(s: string, lo: nat, hi: nat): (p: Option<nat>)
    ensures p.Some? ==> lo <= p.value < hi && ExtensionDot(s, p.value)
    ensures forall q :: lo <= q < hi && ExtensionDot(s, q) ==> p.Some? && q <= p.value
  {
    if lo >= hi then None
    else if ExtensionDot(s, hi - 1) then Some(hi - 1)
    else LastDot(s, lo, hi - 1)
  }

  lemma {:induction false} AlternativeFits(s: string, i: nat, alternatives: seq<string>)
    requires FirstAlternative(s, i, alternatives).Some?
    ensures At(s, i, FirstAlternative(s, i, alternatives).value)
  {
    if !At(s, i, alternatives[0]) { AlternativeFits(s, i, alternatives[1..]); }
  }

  /** The path mark of a path that ends at `end`, with the range that follows it. */
  function MarkOf(start: nat, path: string, end: nat, r: Range): Mark {
    if r.Range? then PathMark(start, r.end, path, Some(r.first), r.last) else PathMark(start, end, path, None, None)
  }

  /** The path from `i` over the dot at `dot` and its extension, with the range behind it. */
  function PathOver(s: string, i: nat, dot: nat): (m: Mark)
    requires i < dot && ExtensionDot(s, dot)
    ensures m.PathMark? && m.start == i < m.end <= |s|
  {
    AlternativeFits(s, dot + 1, EXTENSIONS);
    var end := dot + 1 + |FirstAlternative(s, dot + 1, EXTENSIONS).value|;
    MarkOf(i, s[i..end], end, RangeAt(s, end))
  }

  /** The citation pattern at position `i`. */
  function PathAt(s: string, i: nat): (m: Option<Mark>)
    ensures m.Some? ==> m.value.PathMark? && m.value.start == i < m.value.end <= |s| && s[i] == 'd'
  {
    if !At(s, i, "deps/") then None
    else
      assert s[i] == s[i..i + 5][0];
      var dot := LastDot(s, i + 6, PathRun(s, i + 5));
      if dot.Some? then Some(PathOver(s, i, dot.value)) else None
  }

  /** The continuation pattern at position `i`: the colon must not follow a path character. */
  function ContAt(s: string, i: nat): (m: Option<Mark>)
    requires i <= |s|
    ensures m.Some? ==> m.value.ContMark? && m.value.start == i < m.value.end <= |s|
  {
    var r := RangeAt(s, i);
    if r.Range? && (i == 0 || !IsPathChar(s[i - 1])) then Some(ContMark(i, r.end, Some(r.first), r.last)) else None
  }

  /** `finditer` of the citation pattern from position `i` on. */
  function PathMarks(s: string, i: nat): seq<Mark>
    decreases |s| - i
  {
    if i >= |s| then []
    else
      var m := PathAt(s, i);
      if m.Some? then [m.value] + PathMarks(s, m.value.end) else PathMarks(s, i + 1)
  }

  function ContMarks(s: string, i: nat): seq<Mark>
    decreases |s| - i
  {
    if i >= |s| then []
    else
      var m := ContAt(s, i);
      if m.Some? then [m.value] + ContMarks(s, m.value.end) else ContMarks(s, i + 1)
  }

  predicate Inside(m: Mark, marks: seq<Mark>) {
    exists x :: x in marks && x.start <= m.start < x.end
  }

  // ---------------------------------------------------------------- text order

  /** Nonempty ranges, each ending before the next one starts. */
  ghost predicate InTextOrder(marks: seq<Mark>) {
    && (forall i :: 0 <= i < |marks| ==> marks[i].start < marks[i].end)
    && (forall i, j :: 0 <= i < j < |marks| ==> marks[i].end <= marks[j].start)
  }

  lemma ConsInOrder(m: Mark, rest: seq<Mark>)
    requires InTextOrder(rest) && m.start < m.end && forall x :: x in rest ==> m.end <= x.start
    ensures InTextOrder([m] + rest)
  {
  }

  lemma {:induction false} PathMarksInOrder(s: string, i: nat)
    ensures InTextOrder(PathMarks(s, i))
    ensures forall m :: m in PathMarks(s, i) ==> m.PathMark? && i <= m.start < m.end <= |s| && s[m.start] == 'd'
    decreases |s| - i
  {
    if i < |s| {
      var m := PathAt(s, i);
      if m.Some? {
        PathMarksInOrder(s, m.value.end);
        ConsInOrder(m.value, PathMarks(s, m.value.end));
      } else {
        PathMarksInOrder(s, i + 1);
      }
    }
  }

  lemma {:induction false} ContMarksInOrder(s: string, i: nat)
    ensures InTextOrder(ContMarks(s, i))
    ensures forall m :: m in ContMarks(s, i) ==>
      m.ContMark? && i <= m.start < m.end <= |s| && forall k :: m.start <= k < m.end ==> s[k] != 'd'
    decreases |s| - i
  {
    if i < |s| {
      var m := ContAt(s, i);
      if m.Some? {
        forall k | i <= k < m.value.end ensures s[k] != 'd' { RangeText(s, i, k); }
        ContMarksInOrder(s, m.value.end);
        ConsInOrder(m.value, ContMarks(s, m.value.end));
      } else {
        ContMarksInOrder(s, i + 1);
      }
    }
  }

  /** A continuation that does not start inside a path mark does not touch it. */
  lemma ContinuationsAvoidPaths(s: string, p: Mark, c: Mark)
    requires p in PathMarks(s, 0) && c in ContMarks(s, 0) && !(p.start <= c.start < p.end)
    ensures c.end <= p.start || p.end <= c.start
  {
    PathMarksInOrder(s, 0);
    ContMarksInOrder(s, 0);
  }

  // ---------------------------------------------------------------- the sort

  predicate ByStart(marks: seq<Mark>) {
    forall i, j :: 0 <= i < j < |marks| ==> marks[i].start <= marks[j].start
  }

  function InsertByStart(m: Mark, marks: seq<Mark>): (r: seq<Mark>)
    ensures multiset(r) == multiset(marks) + multiset{m}
  {
    if marks == [] || m.start <= marks[0].start then [m] + marks
    else
      assert marks == [marks[0]] + marks[1..];
      [marks[0]] + InsertByStart(m, marks[1..])
  }

  lemma {:induction false} InsertKeepsOrder(m: Mark, marks: seq<Mark>)
    requires ByStart(marks)
    ensures ByStart(InsertByStart(m, marks))
  {
    if marks != [] && m.start > marks[0].start {
      InsertKeepsOrder(m, marks[1..]);
      var rest := InsertByStart(m, marks[1..]);
      forall j | 0 <= j < |rest| ensures marks[0].start <= rest[j].start {
        assert rest[j] in multiset(rest);
        assert rest[j] == m || rest[j] in marks[1..];
      }
    }
  }

  /** `marks.sort(key=start)`. */
  function SortByStart(marks: seq<Mark>): (r: seq<Mark>)
    ensures ByStart(r) && multiset(r) == multiset(marks)
  {
    if marks == [] then []
    else
      assert marks == [marks[0]] + marks[1..];
      InsertKeepsOrder(marks[0], SortByStart(marks[1..]));
      InsertByStart(marks[0], SortByStart(marks[1..]))
  }

  /** The marks of a literal: every path, and the continuations outside all path marks. */
  ghost predicate IsMarkOf(s: string, m: Mark) {
    m in PathMarks(s, 0) || (m in ContMarks(s, 0) && !Inside(m, PathMarks(s, 0)))
  }

  lemma MarksAreDisjoint(s: string, a: Mark, b: Mark)
    requires IsMarkOf(s, a) && IsMarkOf(s, b) && a != b
    ensures a.end <= b.start || b.end <= a.start
  {
    PathMarksInOrder(s, 0);
    ContMarksInOrder(s, 0);
    if a in PathMarks(s, 0) && b in ContMarks(s, 0) && !Inside(b, PathMarks(s, 0)) { ContinuationsAvoidPaths(s, a, b); }
    if b in PathMarks(s, 0) && a in ContMarks(s, 0) && !Inside(a, PathMarks(s, 0)) { ContinuationsAvoidPaths(s, b, a); }
  }

  lemma SortedMarksInOrder(s: string, marks: seq<Mark>)
    requires ByStart(marks) && NoRepeats(marks)
    requires forall m :: m in marks ==> IsMarkOf(s, m)
    ensures InTextOrder(marks)
  {
    PathMarksInOrder(s, 0);
    ContMarksInOrder(s, 0);
    forall i | 0 <= i < |marks| ensures marks[i].start < marks[i].end { assert IsMarkOf(s, marks[i]); }
    forall i, j | 0 <= i < j < |marks| ensures marks[i].end <= marks[j].start {
      MarksAreDisjoint(s, marks[i], marks[j]);
    }
  }

  // ---------------------------------------------------------------- binding

  datatype Ref = Ref(path: string, first: Option<string>, last: Option<string>)

  /** The index of the first path mark. */
  function FirstPath(marks: seq<Mark>): (n: nat)
    ensures n <= |marks| && (forall i :: 0 <= i < n ==> marks[i].ContMark?) && (n < |marks| ==> marks[n].PathMark?)
  {
    if marks == [] || marks[0].PathMark? then 0 else 1 + FirstPath(marks[1..])
  }

  /** The path of the latest path mark at or before `k`. */
  function Nearest(marks: seq<Mark>, k: nat): string
    requires FirstPath(marks) <= k < |marks|
  {
    if marks[k].PathMark? then marks[k].path else Nearest(marks, k - 1)
  }

  /** Every mark from the first path on, bound to its nearest path. */
  ghost predicate Binds(marks: seq<Mark>, refs: seq<Ref>) {
    var n := FirstPath(marks);
    && |refs| == |marks| - n
    && forall k :: 0 <= k < |refs| ==> refs[k] == Ref(Nearest(marks, n + k), marks[n + k].first, marks[n + k].last)
  }

  /** The marks behind a literal's references: all its marks, in text order, each once. */
  ghost predicate AreMarksOf(s: string, marks: seq<Mark>) {
    && (forall m :: m in marks <==> IsMarkOf(s, m))
    && InTextOrder(marks)
  }

  /** The references of a literal: in text order each path, and each continuation bound to the
      latest path before it; exactly the continuations before the first path are dropped. */
  ghost predicate ReferencesOf(s: string, refs: seq<Ref>) {
    exists marks :: AreMarksOf(s, marks) && Binds(marks, refs)
  }

  /** `references`. */
  method References(literal: string) returns (refs: seq<Ref>)
    ensures ReferencesOf(literal, refs)
  {
    var found := FindMarks(literal);
    var sorted := SortByStart(found);
    RearrangedNoRepeats(sorted, found);
    SameMembers(sorted, found);
    SortedMarksInOrder(literal, sorted);
    assert AreMarksOf(literal, sorted);
    refs := Bind(sorted);
  }

  lemma SameMembers(xs: seq<Mark>, ys: seq<Mark>)
    requires multiset(xs) == multiset(ys)
    ensures forall m :: m in xs <==> m in ys
  {
    forall m ensures m in xs <==> m in ys {
      assert m in xs <==> m in multiset(xs);
      assert m in ys <==> m in multiset(ys);
    }
  }

  lemma InOrderNoRepeats(marks: seq<Mark>)
    requires InTextOrder(marks)
    ensures NoRepeats(marks)
  {
  }

  method FindMarks(literal: string) returns (marks: seq<Mark>)
    ensures NoRepeats(marks)
    ensures forall m :: m in marks <==> IsMarkOf(literal, m)
  {
    var paths, conts := PathMarks(literal, 0), ContMarks(literal, 0);
    PathMarksInOrder(literal, 0);
    ContMarksInOrder(literal, 0);
    InOrderNoRepeats(paths);
    marks := paths;
    for i := 0 to |conts|
      invariant NoRepeats(marks)
      invariant forall m :: m in marks <==> m in paths || (m in conts[..i] && !Inside(m, paths))
    {
      var c := conts[i];
      assert conts[..i + 1] == conts[..i] + [c];
      assert Inside(c, marks) <==> Inside(c, paths) by {
        if x :| x in marks && x.start <= c.start < x.end { assert x in paths; }
        if x :| x in paths && x.start <= c.start < x.end { assert x in marks; }
      }
      if Inside(c, marks) {
        continue;
      }
      marks := marks + [c];
    }
    assert conts[..|conts|] == conts;
  }

  method Bind(marks: seq<Mark>) returns (refs: seq<Ref>)
    ensures Binds(marks, refs)
  {
    var current: Option<string> := None;
    refs := [];
    var n := FirstPath(marks);
    for i := 0 to |marks|
      invariant current.None? <==> i <= n
      invariant i > n ==> current == Some(Nearest(marks, i - 1))
      invariant |refs| == if i <= n then 0 else i - n
      invariant forall k :: 0 <= k < |refs| ==>
        refs[k] == Ref(Nearest(marks, n + k), marks[n + k].first, marks[n + k].last)
    {
      if marks[i].PathMark? {
        current := Some(marks[i].path);
        refs := refs + [Ref(marks[i].path, marks[i].first, marks[i].last)];
      } else if current.Some? {
        refs := refs + [Ref(current.value, marks[i].first, marks[i].last)];
      }
    }
  }

  // ---------------------------------------------------------------- the extension `exs`

  predicate PathText(body: string) { body != "" && forall c :: c in body ==> IsPathChar(c) }

  /** A path as it is written: `deps/<body>.<ext>`. */
  function Cited(body: string, ext: string): (r: string)
    ensures |r| == 6 + |body| + |ext| && r[..5] == "deps/" && r[5 + |body|] == '.' && r[6 + |body|..] == ext
  {
    "deps/" + body + "." + ext
  }

  lemma Differs(s: string, i: nat, a: string, b: string, k: nat)
    requires At(s, i, a) && k < |a| && k < |b| && a[k] != b[k]
    ensures !At(s, i, b)
  {
  }

  lemma StartsWithEx(s: string, i: nat, ext: string)
    requires (ext == "ex" || ext == "exs") && At(s, i, ext)
    ensures FirstAlternative(s, i, EXTENSIONS) == Some("ex")
  {
    AtWord(s, i, ext);
    AtWord(s, i, "ex");
    assert forall k :: 0 <= k < 2 ==> ext[k] == "ex"[k];
  }

  lemma NeitherEx(s: string, i: nat, ext: string)
    requires (ext == "erl" || ext == "rs") && At(s, i, ext)
    ensures FirstAlternative(s, i, EXTENSIONS) == FirstAlternative(s, i, ["erl", "rs"])
  {
    var k := if ext == "erl" then 1 else 0;
    Differs(s, i, ext, "ex", k);
    Differs(s, i, ext, "exs", k);
    assert EXTENSIONS[1..] == ["exs", "erl", "rs"] && ["exs", "erl", "rs"][1..] == ["erl", "rs"];
  }

  /** The group takes the extension that is there, except that it takes `ex` out of `exs`. */
  lemma ExtensionTaken(s: string, i: nat, ext: string)
    requires ext in EXTENSIONS && At(s, i, ext)
    ensures FirstAlternative(s, i, EXTENSIONS) == Some(if ext == "exs" then "ex" else ext)
  {
    if ext == "ex" || ext == "exs" {
      StartsWithEx(s, i, ext);
    } else {
      NeitherEx(s, i, ext);
      if ext == "rs" { Differs(s, i, "rs", "erl", 0); }
      assert ["erl", "rs"][1..] == ["rs"];
    }
  }

  // ---------------------------------------------------------------- where a cited path ends

  lemma {:induction false} PathRunIs(s: string, i: nat, e: nat)
    requires i <= e <= |s| && (forall k :: i <= k < e ==> IsPathChar(s[k])) && (e == |s| || !IsPathChar(s[e]))
    ensures PathRun(s, i) == e
    decreases e - i
  {
    if i < e { PathRunIs(s, i + 1, e); }
  }

  lemma CitedChars(body: string, ext: string, k: nat)
    requires PathText(body) && ext in EXTENSIONS && k < |Cited(body, ext)|
    ensures IsPathChar(Cited(body, ext)[k])
  {
    if 5 <= k < 5 + |body| { assert Cited(body, ext)[k] == body[k - 5] && body[k - 5] in body; }
  }

  /** No dot of an extension. */
  lemma NoDotInside(ext: string, k: nat)
    requires ext in EXTENSIONS && k < |ext|
    ensures ext[k] != '.'
  {
  }

  lemma PartAt(s: string, i: nat, word: string, a: nat, b: nat)
    requires At(s, i, word) && a <= b <= |word|
    ensures At(s, i + a, word[a..b])
  {
    AtWord(s, i, word);
    AtWord(s, i + a, word[a..b]);
    forall k | 0 <= k < b - a ensures s[i + a + k] == word[a..b][k] {
      assert s[i + (a + k)] == word[a + k];
    }
  }

  /** Where the citation stands in the text: its directory, its dot, its extension. */
  lemma CitedLayout(s: string, i: nat, body: string, ext: string, dot: nat)
    requires At(s, i, Cited(body, ext)) && dot == i + 5 + |body|
    ensures At(s, i, "deps/") && dot < |s| && s[dot] == '.' && At(s, dot + 1, ext)
  {
    PartAt(s, i, Cited(body, ext), 0, 5);
    PartAt(s, i, Cited(body, ext), 6 + |body|, |Cited(body, ext)|);
    AtWord(s, i, Cited(body, ext));
    assert s[i + (5 + |body|)] == Cited(body, ext)[5 + |body|];
  }

  lemma CitedRun(s: string, i: nat, body: string, ext: string, end: nat)
    requires PathText(body) && ext in EXTENSIONS && At(s, i, Cited(body, ext)) && end == i + 6 + |body| + |ext|
    requires end == |s| || !IsPathChar(s[end])
    ensures PathRun(s, i + 5) == end
  {
    AtWord(s, i, Cited(body, ext));
    forall k | i + 5 <= k < end ensures IsPathChar(s[k]) {
      CitedChars(body, ext, k - i);
      assert s[i + (k - i)] == Cited(body, ext)[k - i];
    }
    PathRunIs(s, i + 5, end);
  }

  /** After its dot, an extension holds no other dot. */
  lemma NoLaterDot(s: string, lo: nat, dot: nat, ext: string, end: nat)
    requires ext in EXTENSIONS && At(s, dot + 1, ext) && end == dot + 1 + |ext|
    requires lo <= dot && ExtensionDot(s, dot)
    ensures LastDot(s, lo, end) == Some(dot)
  {
    AtWord(s, dot + 1, ext);
    forall q | dot < q < end ensures !ExtensionDot(s, q) {
      NoDotInside(ext, q - dot - 1);
      assert s[dot + 1 + (q - dot - 1)] == ext[q - dot - 1];
    }
  }

  lemma OverDot(s: string, i: nat, dot: nat, taken: string, end: nat)
    requires i < dot && ExtensionDot(s, dot) && FirstAlternative(s, dot + 1, EXTENSIONS) == Some(taken)
    requires end == dot + 1 + |taken| <= |s|
    ensures PathOver(s, i, dot) == MarkOf(i, s[i..end], end, RangeAt(s, end))
  {
  }

  lemma NoRangeInside(s: string, end: nat)
    requires end < |s| && s[end] == 's'
    ensures RangeAt(s, end) == NoRange
  {
  }

  lemma TextOfExs(s: string, i: nat, body: string, end: nat)
    requires At(s, i, Cited(body, "exs")) && end == i + 8 + |body|
    ensures s[i..end] == Cited(body, "ex") && s[end] == 's'
  {
    PartAt(s, i, Cited(body, "exs"), 0, 8 + |body|);
    PartAt(s, i, Cited(body, "exs"), 8 + |body|, 9 + |body|);
    assert Cited(body, "exs")[..8 + |body|] == Cited(body, "ex");
    assert s[end..end + 1] == "s";
    assert s[end..end + 1][0] == s[end];
  }

  /** The pattern settles on the dot of the extension. */
  lemma SettlesOnDot(s: string, i: nat, body: string, ext: string, dot: nat, end: nat)
    requires PathText(body) && ext in EXTENSIONS && At(s, i, Cited(body, ext))
    requires dot == i + 5 + |body| && end == dot + 1 + |ext| && (end == |s| || !IsPathChar(s[end]))
    ensures ExtensionDot(s, dot) && PathAt(s, i) == Some(PathOver(s, i, dot))
    ensures FirstAlternative(s, dot + 1, EXTENSIONS) == Some(if ext == "exs" then "ex" else ext)
  {
    CitedLayout(s, i, body, ext, dot);
    ExtensionTaken(s, dot + 1, ext);
    CitedRun(s, i, body, ext, end);
    NoLaterDot(s, i + 6, dot, ext, end);
  }

  lemma CapturedPlain(s: string, i: nat, body: string, ext: string, end: nat)
    requires PathText(body) && ext in EXTENSIONS && ext != "exs"
    requires At(s, i, Cited(body, ext)) && end == i + |Cited(body, ext)| && (end == |s| || !IsPathChar(s[end]))
    ensures PathAt(s, i) == Some(MarkOf(i, Cited(body, ext), end, RangeAt(s, end)))
  {
    var dot := i + 5 + |body|;
    SettlesOnDot(s, i, body, ext, dot, end);
    OverDot(s, i, dot, ext, end);
  }

  lemma CapturedExs(s: string, i: nat, body: string, end: nat)
    requires PathText(body) && At(s, i, Cited(body, "exs")) && end == i + 8 + |body|
    requires end + 1 == |s| || !IsPathChar(s[end + 1])
    ensures PathAt(s, i) == Some(PathMark(i, end, Cited(body, "ex"), None, None))
  {
    var dot := i + 5 + |body|;
    SettlesOnDot(s, i, body, "exs", dot, end + 1);
    TextOfExs(s, i, body, end);
    OverDot(s, i, dot, "ex", end);
    NoRangeInside(s, end);
  }

  /** What the citation pattern makes of a well-formed path that stands anywhere in a text and is
      not followed by a path character: the whole path with the range right behind it, except that
      of an `.exs` path it makes the `.ex` path of the same name without any range, because the
      group tries `ex` first. */
  lemma CapturedWhole(s: string, i: nat, body: string, ext: string, end: nat)
    requires PathText(body) && ext in EXTENSIONS
    requires At(s, i, Cited(body, ext)) && end == i + |Cited(body, ext)| && (end == |s| || !IsPathChar(s[end]))
    ensures PathAt(s, i) == Some(if ext != "exs" then MarkOf(i, Cited(body, ext), end, RangeAt(s, end))
                                 else PathMark(i, end - 1, Cited(body, "ex"), None, None))
  {
    if ext == "exs" {
      CapturedExs(s, i, body, end - 1);
    } else {
      CapturedPlain(s, i, body, ext, end);
    }
  }

  lemma {:induction false} DigitRunIs(s: string, i: nat, e: nat)
    requires i <= e <= |s| && (forall k :: i <= k < e ==> IsDigit(s[k])) && (e == |s| || !IsDigit(s[e]))
    ensures DigitRun(s, i) == e
    decreases e - i
  {
    if i < e { DigitRunIs(s, i + 1, e); }
  }

  predicate Digits(d: string) { d != "" && forall c :: c in d ==> IsDigit(c) }

  /** The range is over: no further digit, and no dash that goes on with one. */
  predicate EndsRange(s: string, e: nat, last: Option<string>) {
    e < |s| ==> !IsDigit(s[e]) && (s[e] == '-' ==> last.Some? || e + 1 == |s| || !IsDigit(s[e + 1]))
  }

  /** The range behind a path: `:first` or `:first-last`. */
  lemma RangeRead(s: string, i: nat, first: string, last: Option<string>)
    requires Digits(first) && (last.Some? ==> Digits(last.value))
    requires At(s, i, PrintRange(first, last)) && EndsRange(s, i + |PrintRange(first, last)|, last)
    ensures RangeAt(s, i) == Range(first, last, i + |PrintRange(first, last)|)
  {
    var e := i + 1 + |first|;
    AtWord(s, i, PrintRange(first, last));
    FirstRead(s, i, first, last, e);
    DigitRunIs(s, i + 1, e);
    if last.Some? {
      var e' := e + 1 + |last.value|;
      LastRead(s, i, first, last.value, e, e');
      DigitRunIs(s, e + 1, e');
    } else if e < |s| && s[e] == '-' {
      DigitRunIs(s, e + 1, e + 1);
    }
  }

  function PrintRange(first: string, last: Option<string>): string {
    ":" + first + if last.Some? then "-" + last.value else ""
  }

  lemma FirstRead(s: string, i: nat, first: string, last: Option<string>, e: nat)
    requires Digits(first) && At(s, i, PrintRange(first, last)) && e == i + 1 + |first|
    ensures s[i] == ':' && s[i + 1..e] == first && forall k :: i + 1 <= k < e ==> IsDigit(s[k])
    ensures last.Some? ==> e < |s| && s[e] == '-'
  {
    var p := PrintRange(first, last);
    AtWord(s, i, p);
    assert p[0] == ':' && p[1..1 + |first|] == first;
    forall k | i + 1 <= k < e ensures s[k] == first[k - i - 1] && IsDigit(s[k]) {
      assert s[i + (k - i)] == p[k - i] == first[k - i - 1];
      assert first[k - i - 1] in first;
    }
    if last.Some? { assert s[i + (1 + |first|)] == p[1 + |first|] == '-'; }
  }

  lemma LastRead(s: string, i: nat, first: string, last: string, e: nat, e': nat)
    requires Digits(last) && At(s, i, PrintRange(first, Some(last))) && e == i + 1 + |first| && e' == e + 1 + |last|
    ensures s[e + 1..e'] == last && forall k :: e + 1 <= k < e' ==> IsDigit(s[k])
  {
    var p := PrintRange(first, Some(last));
    AtWord(s, i, p);
    forall k | e + 1 <= k < e' ensures s[k] == last[k - e - 1] && IsDigit(s[k]) {
      assert s[i + (k - i)] == p[k - i] == last[k - e - 1];
      assert last[k - e - 1] in last;
    }
  }

  /** A whole citation with its range, anywhere in a text. */
  lemma CitationRead(s: string, i: nat, body: string, ext: string, first: string, last: Option<string>, n: nat, e: nat)
    requires PathText(body) && ext in EXTENSIONS && At(s, i, Cited(body, ext)) && n == i + |Cited(body, ext)|
    requires Digits(first) && (last.Some? ==> Digits(last.value))
    requires At(s, n, PrintRange(first, last)) && e == n + |PrintRange(first, last)| && EndsRange(s, e, last)
    ensures PathAt(s, i) == Some(if ext != "exs" then PathMark(i, e, Cited(body, ext), Some(first), last)
                                 else PathMark(i, n - 1, Cited(body, "ex"), None, None))
  {
    RangeRead(s, n, first, last);
    assert s[n..e][0] == ':';
    CapturedWhole(s, i, body, ext, n);
  }
}
