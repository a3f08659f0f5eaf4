/** `underscore`: a module name to the path of its file, by two regular-expression passes. */
module Underscore {
  import opened Text

  predicate LowerOrDigit(c: char) { IsLower(c) || IsDigit(c) }

  function Lower(c: char): char {
    if IsUpper(c) then (c as int - 'A' as int + 'a' as int) as char else c
  }

  lemma SmallOrDigit(c: char)
    ensures LowerOrDigit(c) <==> c in SMALL_LETTERS + DECIMALS
  {
  }

  /** A capital becomes the small letter of the same place in the alphabet, 32 codes further on;
      nothing else changes. */
  lemma LowerMeaning(c: char)
    ensures c in CAPITALS ==> Lower(c) in SMALL_LETTERS && Lower(c) as int == c as int + 32
    ensures c !in CAPITALS ==> Lower(c) == c
    ensures Lower('A') == 'a' && Lower('M') == 'm' && Lower('Z') == 'z'
  {
  }

  function MapChars(f: char -> char, s: string): (r: string)
    ensures |r| == |s| && forall i :: 0 <= i < |s| ==> r[i] == f(s[i])
  {
    seq(|s|, i requires 0 <= i < |s| => f(s[i]))
  }

  /** The length of the run of capitals that starts the string. */
  function UpperRun(s: string): (n: nat)
    ensures n <= |s| && (forall i :: 0 <= i < n ==> IsUpper(s[i])) && (n < |s| ==> !IsUpper(s[n]))
  {
    if s != "" && IsUpper(s[0]) then 1 + UpperRun(s[1..]) else 0
  }

  /** `re.sub("([A-Z]+)([A-Z][a-z])", "\1_\2", s)`: the greedy run gives back its last capital. */
  function SplitAcronyms(s: string): string {
    var n := UpperRun(s);
    if s == "" then ""
    else if 2 <= n < |s| && IsLower(s[n]) then s[..n - 1] + "_" + s[n - 1..n + 1] + SplitAcronyms(s[n + 1..])
    else [s[0]] + SplitAcronyms(s[1..])
  }

  /** `re.sub("([a-z\d])([A-Z])", "\1_\2", s)`. */
  function SplitCamel(s: string): string {
    if |s| < 2 then s
    else if LowerOrDigit(s[0]) && IsUpper(s[1]) then [s[0], '_', s[1]] + SplitCamel(s[2..])
    else [s[0]] + SplitCamel(s[1..])
  }

  const TO_SLASH := (c: char) => if c == '.' then '/' else c
  const TO_UNDERSCORE := (c: char) => if c == '-' then '_' else c
  const TO_LOWER := (c: char) => Lower(c)

  function Underscore(s: string): string {
    MapChars(TO_LOWER, MapChars(TO_UNDERSCORE, SplitCamel(SplitAcronyms(MapChars(TO_SLASH, s)))))
  }

  // ---------------------------------------------------------------- one pass

  function Fold(c: char): char {
    if c == '.' then '/' else if c == '-' then '_' else Lower(c)
  }

  /** A dot becomes a slash, a dash an underscore; of the rest only the capitals change. */
  lemma FoldMeaning(c: char)
    ensures Fold('.') == '/' && Fold('-') == '_'
    ensures c in CAPITALS ==> Fold(c) in SMALL_LETTERS && Fold(c) as int == c as int + 32
    ensures c !in CAPITALS + {'.', '-'} ==> Fold(c) == c
  {
    LowerMeaning(c);
  }

  /** A word starts at position `i`. */
  predicate Boundary(s: string, i: nat) {
    && 0 < i < |s| && IsUpper(s[i])
    && (LowerOrDigit(s[i - 1]) || (IsUpper(s[i - 1]) && i + 1 < |s| && IsLower(s[i + 1])))
  }

  /** From position `i` on: each character folded, with `_` before it at a boundary. */
  function OnePass(s: string, i: nat): string
    requires i <= |s|
    decreases |s| - i
  {
    if i == |s| then "" else (if Boundary(s, i) then "_" else "") + [Fold(s[i])] + OnePass(s, i + 1)
  }

  // ---------------------------------------------------------------- marking with the previous character

  predicate AcronymMark(prev: char, s: string)
    requires s != ""
  {
    IsUpper(prev) && IsUpper(s[0]) && |s| > 1 && IsLower(s[1])
  }

  /** `_` before every character that ends an acronym; `prev` is the character before the string. */
  function MarkAcronyms(prev: char, s: string): string
    decreases |s|
  {
    if s == "" then "" else (if AcronymMark(prev, s) then "_" else "") + [s[0]] + MarkAcronyms(s[0], s[1..])
  }

  function MarkCamel(prev: char, s: string): string
    decreases |s|
  {
    if s == "" then ""
    else (if LowerOrDigit(prev) && IsUpper(s[0]) then "_" else "") + [s[0]] + MarkCamel(s[0], s[1..])
  }

  function MarkBoth(prev: char, s: string): string
    decreases |s|
  {
    if s == "" then ""
    else
      (if AcronymMark(prev, s) || (LowerOrDigit(prev) && IsUpper(s[0])) then "_" else "")
      + [s[0]] + MarkBoth(s[0], s[1..])
  }

  lemma MarkAcronymsAfter(prev: char, s: string)
    requires s == "" || !AcronymMark(prev, s)
    ensures MarkAcronyms(prev, s) == MarkAcronyms('/', s)
  {
  }

  /** A run of capitals before a lowercase letter is marked before its last capital only. */
  lemma {:induction false} MarkedRun(prev: char, run: string, last: char, low: char, rest: string)
    requires (forall c :: c in run ==> IsUpper(c)) && IsUpper(last) && IsLower(low)
    requires IsUpper(prev) || run != ""
    ensures MarkAcronyms(prev, run + ([last, low] + rest)) == run + (['_', last, low] + MarkAcronyms('/', rest))
    decreases |run|
  {
    var s := run + ([last, low] + rest);
    if run == "" {
      assert s == [last, low] + rest;
      assert s[1..] == [low] + rest && s[1..][1..] == rest;
      MarkAcronymsAfter(low, rest);
      assert MarkAcronyms(last, s[1..]) == [low] + MarkAcronyms(low, rest);
    } else {
      assert s[1..] == run[1..] + ([last, low] + rest);
      assert IsUpper(s[1]) by { if |run| > 1 { assert run[1] in run; } }
      MarkedRun(run[0], run[1..], last, low, rest);
      assert run == [run[0]] + run[1..];
    }
  }

  predicate Matches(s: string) {
    2 <= UpperRun(s) < |s| && IsLower(s[UpperRun(s)])
  }

  lemma SplitMatched(s: string)
    requires Matches(s)
    ensures var n := UpperRun(s);
            SplitAcronyms(s) == s[..n - 1] + (['_', s[n - 1], s[n]] + SplitAcronyms(s[n + 1..]))
  {
    var n := UpperRun(s);
    var rest := SplitAcronyms(s[n + 1..]);
    assert s[n - 1..n + 1] == [s[n - 1], s[n]];
    ConcatAssociative(s[..n - 1], "_", s[n - 1..n + 1]);
    ConcatAssociative(s[..n - 1], "_" + s[n - 1..n + 1], rest);
    assert "_" + [s[n - 1], s[n]] == ['_', s[n - 1], s[n]];
  }

  lemma MarkMatched(s: string)
    requires Matches(s)
    ensures var n := UpperRun(s);
            MarkAcronyms('/', s) == s[..n - 1] + (['_', s[n - 1], s[n]] + MarkAcronyms('/', s[n + 1..]))
  {
    var n := UpperRun(s);
    MarkedRun('/', s[..n - 1], s[n - 1], s[n], s[n + 1..]);
    assert s == s[..n - 1] + ([s[n - 1], s[n]] + s[n + 1..]);
  }

  lemma {:induction false} AcronymsAreMarked(s: string)
    ensures SplitAcronyms(s) == MarkAcronyms('/', s)
    decreases |s|
  {
    if Matches(s) {
      SplitMatched(s);
      MarkMatched(s);
      AcronymsAreMarked(s[UpperRun(s) + 1..]);
    } else if s != "" {
      AcronymsAreMarked(s[1..]);
      MarkAcronymsAfter(s[0], s[1..]);
    }
  }

  lemma {:induction false} CamelIsMarked(prev: char, s: string)
    requires s == "" || !(LowerOrDigit(prev) && IsUpper(s[0]))
    ensures SplitCamel(s) == MarkCamel(prev, s)
    decreases |s|
  {
    if |s| >= 2 {
      if LowerOrDigit(s[0]) && IsUpper(s[1]) {
        CamelIsMarked(s[1], s[2..]);
        assert s[1..][1..] == s[2..];
      } else {
        CamelIsMarked(s[0], s[1..]);
      }
    } else if |s| == 1 {
      assert s == [s[0]] + s[1..] && s[1..] == "";
    }
  }

  lemma MarkCamelCons(prev: char, c: char, rest: string)
    ensures MarkCamel(prev, [c] + rest)
            == (if LowerOrDigit(prev) && IsUpper(c) then "_" else "") + [c] + MarkCamel(c, rest)
  {
  }

  /** Marks of the first pass neither hide nor create boundaries of the second. */
  lemma {:induction false} MarksCompose(prev: char, s: string)
    ensures MarkCamel(prev, MarkAcronyms(prev, s)) == MarkBoth(prev, s)
    decreases |s|
  {
    if s != "" {
      var rest := MarkAcronyms(s[0], s[1..]);
      MarksCompose(s[0], s[1..]);
      if AcronymMark(prev, s) {
        ConcatAssociative("_", [s[0]], rest);
        MarkCamelCons(prev, '_', [s[0]] + rest);
        MarkCamelCons('_', s[0], rest);
      } else {
        MarkCamelCons(prev, s[0], rest);
      }
    }
  }

  function FoldAll(s: string): string { MapChars(TO_LOWER, MapChars(TO_UNDERSCORE, s)) }

  lemma FoldConcat(a: string, b: string)
    ensures FoldAll(a + b) == FoldAll(a) + FoldAll(b)
  {
  }

  lemma MarkBothStep(s: string, i: nat, prev: char)
    requires i < |s| && prev == if i == 0 then '/' else MapChars(TO_SLASH, s)[i - 1]
    ensures var t := MapChars(TO_SLASH, s);
            MarkBoth(prev, t[i..]) == (if Boundary(s, i) then "_" else "") + [t[i]] + MarkBoth(t[i], t[i + 1..])
  {
  }

  /** Folding the marked text from position `i` on is the one-pass text. */
  lemma {:induction false} FoldedMarks(s: string, i: nat)
    requires i <= |s|
    ensures var t := MapChars(TO_SLASH, s);
            FoldAll(MarkBoth(if i == 0 then '/' else t[i - 1], t[i..])) == OnePass(s, i)
    decreases |s| - i
  {
    var t := MapChars(TO_SLASH, s);
    if i < |s| {
      FoldedMarks(s, i + 1);
      MarkBothStep(s, i, if i == 0 then '/' else t[i - 1]);
      var mark := if Boundary(s, i) then "_" else "";
      FoldConcat(mark + [t[i]], MarkBoth(t[i], t[i + 1..]));
      assert FoldAll(mark + [t[i]]) == mark + [Fold(s[i])];
    }
  }

  /** The two passes give what the one-pass boundary rule gives. */
  lemma TwoPassesAreOne(s: string)
    ensures Underscore(s) == OnePass(s, 0)
  {
    var t := MapChars(TO_SLASH, s);
    AcronymsAreMarked(t);
    CamelIsMarked('/', SplitAcronyms(t));
    MarksCompose('/', t);
    FoldedMarks(s, 0);
    assert t[0..] == t;
  }

  // ---------------------------------------------------------------- length and idempotence

  function Boundaries(s: string, from: nat): set<nat> {
    set i: nat | from <= i < |s| && Boundary(s, i)
  }

  lemma {:induction false} OnePassLength(s: string, i: nat)
    requires i <= |s|
    ensures |OnePass(s, i)| == |s| - i + |Boundaries(s, i)|
    decreases |s| - i
  {
    if i == |s| {
      assert Boundaries(s, i) == {};
    } else {
      OnePassLength(s, i + 1);
      assert Boundaries(s, i) == Boundaries(s, i + 1) + if Boundary(s, i) then {i} else {};
    }
  }

  predicate Folded(s: string) {
    forall c :: c in s ==> !IsUpper(c) && c != '.' && c != '-'
  }

  lemma {:induction false} OnePassFolds(s: string, i: nat)
    requires i <= |s|
    ensures Folded(OnePass(s, i))
    decreases |s| - i
  {
    if i < |s| { OnePassFolds(s, i + 1); }
  }

  lemma {:induction false} OnePassKeepsFolded(s: string, i: nat)
    requires i <= |s| && Folded(s)
    ensures OnePass(s, i) == s[i..]
    decreases |s| - i
  {
    if i < |s| {
      OnePassKeepsFolded(s, i + 1);
      assert s[i] in s;
    }
  }

  lemma UnderscoreLength(s: string)
    ensures |Underscore(s)| == |s| + |Boundaries(s, 0)|
  {
    TwoPassesAreOne(s);
    OnePassLength(s, 0);
  }

  lemma UnderscoreIdempotent(s: string)
    ensures Underscore(Underscore(s)) == Underscore(s)
  {
    TwoPassesAreOne(s);
    OnePassFolds(s, 0);
    TwoPassesAreOne(Underscore(s));
    OnePassKeepsFolded(Underscore(s), 0);
  }

  // ---------------------------------------------------------------- dot by dot

  lemma SameBoundary(s: string, a: string, i: nat)
    requires |a| < |s| && (forall k :: 0 <= k < |a| ==> s[k] == a[k]) && s[|a|] == '.' && i < |a|
    ensures Boundary(s, i) <==> Boundary(a, i)
  {
  }

  lemma {:induction false} BeforeTheDot(s: string, a: string, i: nat)
    requires |a| < |s| && (forall k :: 0 <= k < |a| ==> s[k] == a[k]) && s[|a|] == '.' && i <= |a|
    ensures OnePass(s, i) == OnePass(a, i) + OnePass(s, |a|)
    decreases |a| - i
  {
    if i < |a| {
      BeforeTheDot(s, a, i + 1);
      SameBoundary(s, a, i);
      ConcatAssociative((if Boundary(s, i) then "_" else "") + [Fold(s[i])], OnePass(a, i + 1), OnePass(s, |a|));
    }
  }

  lemma ShiftedBoundary(s: string, n: nat, b: string, i: nat)
    requires 0 < n <= |s| && s[n - 1] == '.' && s[n..] == b && i < |b|
    ensures s[n + i] == b[i]
    ensures Boundary(s, n + i) <==> Boundary(b, i)
  {
    assert s[n + i] == s[n..][i];
    assert i > 0 ==> s[n + i - 1] == s[n..][i - 1];
    assert i + 1 < |b| ==> s[n + i + 1] == s[n..][i + 1];
  }

  lemma {:induction false} BehindTheDot(s: string, n: nat, b: string, i: nat)
    requires 0 < n <= |s| && s[n - 1] == '.' && s[n..] == b && i <= |b|
    ensures OnePass(s, n + i) == OnePass(b, i)
    decreases |b| - i
  {
    if i < |b| {
      ShiftedBoundary(s, n, b, i);
      BehindTheDot(s, n, b, i + 1);
    }
  }

  lemma AtTheDot(s: string, n: nat)
    requires n < |s| && s[n] == '.'
    ensures OnePass(s, n) == "/" + OnePass(s, n + 1)
  {
  }

  lemma OnePassOfParts(s: string, a: string, b: string)
    requires s == a + ("." + b)
    ensures OnePass(s, 0) == OnePass(a, 0) + ("/" + OnePass(b, 0))
  {
    BeforeTheDot(s, a, 0);
    AtTheDot(s, |a|);
    BehindTheDot(s, |a| + 1, b, 0);
  }

  /** A dot makes a directory: the parts of a name are folded each on its own. */
  lemma UnderscoreOfParts(a: string, b: string)
    ensures Underscore(a + ("." + b)) == Underscore(a) + ("/" + Underscore(b))
  {
    TwoPassesAreOne(a);
    TwoPassesAreOne(b);
    TwoPassesAreOne(a + ("." + b));
    OnePassOfParts(a + ("." + b), a, b);
  }

  // ---------------------------------------------------------------- words

  predicate Capitalised(w: string) { |w| > 1 && IsUpper(w[0]) && forall k :: 0 < k < |w| ==> IsLower(w[k]) }

  /** The word with a small initial. */
  function Small(w: string): string
    requires w != ""
  {
    [Lower(w[0])] + w[1..]
  }

  lemma SmallStep(s: string, i: nat)
    requires i < |s| && IsLower(s[i])
    ensures OnePass(s, i) == [s[i]] + OnePass(s, i + 1)
  {
  }

  lemma {:induction false} SmallLetters(s: string, i: nat, e: nat)
    requires i <= e <= |s| && forall k :: i <= k < e ==> IsLower(s[k])
    ensures OnePass(s, i) == s[i..e] + OnePass(s, e)
    decreases e - i
  {
    if i < e {
      SmallStep(s, i);
      SmallLetters(s, i + 1, e);
      assert s[i..e] == [s[i]] + s[i + 1..e];
      ConcatAssociative([s[i]], s[i + 1..e], OnePass(s, e));
    } else {
      assert s[i..e] == "";
    }
  }

  lemma Initial(s: string, i: nat)
    requires i < |s| && IsUpper(s[i]) && (i + 1 < |s| ==> !IsLower(s[i + 1]) || i == 0 || !IsUpper(s[i - 1]))
    ensures OnePass(s, i) == (if i > 0 && LowerOrDigit(s[i - 1]) then "_" else "") + ([Lower(s[i])] + OnePass(s, i + 1))
  {
  }

  lemma WordFolds(w: string)
    requires Capitalised(w)
    ensures Underscore(w) == Small(w)
  {
    TwoPassesAreOne(w);
    Initial(w, 0);
    SmallLetters(w, 1, |w|);
    assert w[1..|w|] == w[1..];
  }

  lemma FirstWord(s: string, a: string)
    requires Capitalised(a) && |a| < |s| && s[..|a|] == a
    ensures OnePass(s, 0) == Small(a) + OnePass(s, |a|)
  {
    assert forall k :: 0 <= k < |a| ==> s[k] == a[k];
    Initial(s, 0);
    SmallLetters(s, 1, |a|);
    assert s[1..|a|] == a[1..];
    ConcatAssociative([Lower(a[0])], a[1..], OnePass(s, |a|));
  }

  lemma LastWord(s: string, n: nat, b: string)
    requires Capitalised(b) && 0 < n < |s| && s[n..] == b && IsLower(s[n - 1])
    ensures OnePass(s, n) == "_" + Small(b)
  {
    assert forall k :: n <= k < |s| ==> s[k] == b[k - n];
    Initial(s, n);
    SmallLetters(s, n + 1, |s|);
    assert s[n + 1..|s|] == b[1..] && OnePass(s, |s|) == "";
  }

  /** Two capitalised words without anything between them are divided. */
  lemma WordsFold(a: string, b: string)
    requires Capitalised(a) && Capitalised(b)
    ensures Underscore(a + b) == Small(a) + ("_" + Small(b))
  {
    TwoPassesAreOne(a + b);
    FirstWord(a + b, a);
    LastWord(a + b, |a|, b);
  }

  // ---------------------------------------------------------------- instances

  lemma Capitals()
    ensures Capitalised("Book") && Capitalised("Library") && Capitalised("Catalog")
    ensures Small("Book") == "book" && Small("Library") == "library" && Small("Catalog") == "catalog"
  {
  }

  lemma BookNames()
    ensures ("Book" + "Library") + ("." + ("Catalog" + ("." + "Book"))) == "BookLibrary.Catalog.Book"
    ensures ("book" + ("_" + "library")) + ("/" + ("catalog" + ("/" + "book"))) == "book_library/catalog/book"
  {
  }

  /** A word starts inside `BookLibrary`, and none behind a dot. */
  lemma FileOfBook()
    ensures Underscore("BookLibrary.Catalog.Book") == "book_library/catalog/book"
  {
    Capitals();
    WordFolds("Book");
    WordFolds("Catalog");
    WordsFold("Book", "Library");
    UnderscoreOfParts("Catalog", "Book");
    UnderscoreOfParts("Book" + "Library", "Catalog" + ("." + "Book"));
    BookNames();
  }
}
