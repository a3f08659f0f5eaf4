/** The Python string and list operations the checkers are built from: `str.join`, `str.split`,
    `str.replace`, `sorted`, and the lexicographic order on strings that `sorted` uses. */
module Text {

  datatype Option<+T> = None | Some(value: T)

  function Or<T>(o: Option<T>, default: T): T {
    if o.Some? then o.value else default
  }

  predicate IsUpper(c: char) { 'A' <= c <= 'Z' }
  predicate IsLower(c: char) { 'a' <= c <= 'z' }
  predicate IsDigit(c: char) { '0' <= c <= '9' }

  /** What `\w` matches, in ASCII. */
  predicate IsWordChar(c: char) { IsUpper(c) || IsLower(c) || IsDigit(c) || c == '_' }

  /** What `\s` matches and `strip` removes, in ASCII. */
  predicate IsSpace(c: char) { c == ' ' || 9 <= c as int <= 13 || 28 <= c as int <= 31 }

  predicate StartsWith(s: string, prefix: string) {
    |prefix| <= |s| && s[..|prefix|] == prefix
  }

  predicate At(s: string, i: nat, word: string) {
    i + |word| <= |s| && s[i..i + |word|] == word
  }

  lemma AtWord(s: string, i: nat, word: string)
    requires i + |word| <= |s|
    ensures At(s, i, word) <==> forall k :: 0 <= k < |word| ==> s[i + k] == word[k]
  {
  }

  /** `word in s`. */
  predicate Contains(s: string, word: string) {
    exists i :: 0 <= i <= |s| && At(s, i, word)
  }

  predicate EndsWith(s: string, suffix: string) {
    |suffix| <= |s| && s[|s| - |suffix|..] == suffix
  }

  const CAPITALS: set<char> :=
    {'A', 'B', 'C', 'D', 'E', 'F', 'G', 'H', 'I', 'J', 'K', 'L', 'M',
     'N', 'O', 'P', 'Q', 'R', 'S', 'T', 'U', 'V', 'W', 'X', 'Y', 'Z'}
  const SMALL_LETTERS: set<char> :=
    {'a', 'b', 'c', 'd', 'e', 'f', 'g', 'h', 'i', 'j', 'k', 'l', 'm',
     'n', 'o', 'p', 'q', 'r', 's', 't', 'u', 'v', 'w', 'x', 'y', 'z'}
  const DECIMALS: set<char> := {'0', '1', '2', '3', '4', '5', '6', '7', '8', '9'}

  /** The character classes, letter by letter. */
  lemma CharacterClasses(c: char)
    ensures IsUpper(c) <==> c in CAPITALS
    ensures IsLower(c) <==> c in SMALL_LETTERS
    ensures IsDigit(c) <==> c in DECIMALS
    ensures IsWordChar(c) <==> c in CAPITALS + SMALL_LETTERS + DECIMALS + {'_'}
  {
  }

  /** White space: blank, tab, line feed, vertical tab, form feed, carriage return, and the four
      separators behind code 27. */
  lemma SpaceClass(c: char)
    ensures IsSpace(c) <==> c as int in {32, 9, 10, 11, 12, 13, 28, 29, 30, 31}
  {
  }

  /** A prefix is followed by the rest, a suffix is preceded by it, a part stands between the two. */
  lemma PrefixAndRest(s: string, word: string)
    ensures StartsWith(s, word) <==> exists rest :: s == word + rest
  {
    if StartsWith(s, word) { assert s == word + s[|word|..]; }
  }

  lemma RestAndSuffix(s: string, word: string)
    ensures EndsWith(s, word) <==> exists pre :: s == pre + word
  {
    if EndsWith(s, word) { assert s == s[..|s| - |word|] + word; }
  }

  lemma PartOfText(s: string, word: string)
    ensures Contains(s, word) <==> exists pre, rest :: s == pre + word + rest
  {
    if Contains(s, word) {
      var i :| 0 <= i <= |s| && At(s, i, word);
      assert s == s[..i] + word + s[i + |word|..];
    }
    if pre, rest :| s == pre + word + rest { assert At(s, |pre|, word); }
  }

  // ---------------------------------------------------------------- searching

  /** `re.search`: what a pattern captures at the first position where it matches. */
  function Search<T>(t: string, pattern: string -> Option<T>): Option<T> {
    if pattern(t).Some? then pattern(t) else if t == "" then None else Search(t[1..], pattern)
  }

  /** The pattern matches nowhere inside `pre` when `rest` follows. */
  ghost predicate NoMatchIn<T>(pre: string, rest: string, pattern: string -> Option<T>) {
    forall i :: 0 <= i < |pre| ==> pattern((pre + rest)[i..]).None?
  }

  /** A search passes over text that holds no match. */
  lemma {:induction false} SearchAfter<T>(pre: string, rest: string, pattern: string -> Option<T>)
    requires NoMatchIn(pre, rest, pattern)
    ensures Search(pre + rest, pattern) == Search(rest, pattern)
  {
    if pre == "" {
      assert pre + rest == rest;
    } else {
      assert (pre + rest)[0..] == pre + rest && (pre + rest)[1..] == pre[1..] + rest;
      forall i | 0 <= i < |pre[1..]| ensures pattern((pre[1..] + rest)[i..]).None? {
        assert (pre + rest)[i + 1..] == (pre[1..] + rest)[i..];
      }
      SearchAfter(pre[1..], rest, pattern);
    }
  }

  /** A search finds the first match there is, and one wherever there is one. */
  lemma {:induction false} SearchFindsFirst<T>(t: string, pattern: string -> Option<T>)
    ensures Search(t, pattern).Some? <==> exists i :: 0 <= i <= |t| && pattern(t[i..]).Some?
    ensures forall i :: 0 <= i <= |t| && pattern(t[i..]).Some? && (forall j :: 0 <= j < i ==> pattern(t[j..]).None?) ==>
      Search(t, pattern) == pattern(t[i..])
  {
    assert t[0..] == t;
    if pattern(t).None? && t != "" {
      SearchFindsFirst(t[1..], pattern);
      assert forall i :: 0 <= i <= |t[1..]| ==> t[1..][i..] == t[i + 1..];
      if i :| 0 <= i <= |t| && pattern(t[i..]).Some? { assert t[1..][i - 1..] == t[i..]; }
      if i :| 0 <= i <= |t[1..]| && pattern(t[1..][i..]).Some? { assert t[i + 1..] == t[1..][i..]; }
      forall i | 0 <= i <= |t| && pattern(t[i..]).Some? && (forall j :: 0 <= j < i ==> pattern(t[j..]).None?)
        ensures Search(t, pattern) == pattern(t[i..])
      {
        assert i > 0 && t[1..][i - 1..] == t[i..];
        forall j | 0 <= j < i - 1 ensures pattern(t[1..][j..]).None? { assert t[1..][j..] == t[j + 1..]; }
      }
    }
  }

  /** The visible sentinel the readers return for a property that is not there. */
  function Missing(prop: string): string { "<MISSING:" + prop + ">" }

  // ---------------------------------------------------------------- join and split

  /** `sep.join(parts)`. */
  function Join(sep: string, parts: seq<string>): string {
    if parts == [] then ""
    else if |parts| == 1 then parts[0]
    else parts[0] + sep + Join(sep, parts[1..])
  }

  /** `s.split(sep)`, which never returns the empty list. */
  function Split(s: string, sep: char): (parts: seq<string>)
    ensures |parts| > 0
  {
    if s == [] then [""] else Prepend(s[0], sep, Split(s[1..], sep))
  }

  function Prepend(c: char, sep: char, parts: seq<string>): (r: seq<string>)
    requires parts != []
    ensures |r| > 0
  {
    if c == sep then [""] + parts else [[c] + parts[0]] + parts[1..]
  }

  /** Every part with the separator before it. */
  function Tail(sep: string, parts: seq<string>): string {
    if parts == [] then "" else sep + parts[0] + Tail(sep, parts[1..])
  }

  lemma {:induction false} JoinTail(sep: string, parts: seq<string>)
    requires parts != []
    ensures Join(sep, parts) == parts[0] + Tail(sep, parts[1..])
  {
    if |parts| > 1 {
      JoinTail(sep, parts[1..]);
      ConcatAssociative(sep, parts[1], Tail(sep, parts[1..][1..]));
      ConcatAssociative(parts[0], sep, Join(sep, parts[1..]));
    }
  }

  lemma {:induction false} TailConcat(sep: string, a: seq<string>, b: seq<string>)
    ensures Tail(sep, a + b) == Tail(sep, a) + Tail(sep, b)
  {
    if a == [] {
      assert a + b == b;
    } else {
      assert (a + b)[1..] == a[1..] + b;
      TailConcat(sep, a[1..], b);
      ConcatAssociative(sep + a[0], Tail(sep, a[1..]), Tail(sep, b));
    }
  }

  lemma PrependAppend(c: char, sep: char, l: seq<string>, r: seq<string>)
    requires l != []
    ensures Prepend(c, sep, l + r) == Prepend(c, sep, l) + r
  {
  }

  /** Joining undoes splitting, and no part holds the separator. */
  lemma {:induction false} JoinOfSplit(s: string, sep: char)
    ensures Join([sep], Split(s, sep)) == s
    ensures forall p :: p in Split(s, sep) ==> sep !in p
  {
    if s != [] {
      JoinOfSplit(s[1..], sep);
      var rest := Split(s[1..], sep);
      assert s == [s[0]] + s[1..];
      if s[0] != sep {
        assert ([[s[0]] + rest[0]] + rest[1..])[1..] == rest[1..];
      }
    }
  }

  lemma {:induction false} SplitWithoutSeparator(s: string, sep: char)
    requires sep !in s
    ensures Split(s, sep) == [s]
  {
    if s != [] {
      SplitWithoutSeparator(s[1..], sep);
      assert [s[0]] + s[1..] == s;
    }
  }

  lemma {:induction false} SplitAppend(a: string, sep: char, b: string)
    ensures Split(a + [sep] + b, sep) == Split(a, sep) + Split(b, sep)
  {
    if a == [] {
      assert (a + [sep] + b)[1..] == b;
    } else {
      var s := a + [sep] + b;
      assert s[0] == a[0] && s[1..] == a[1..] + [sep] + b;
      SplitAppend(a[1..], sep, b);
      PrependAppend(a[0], sep, Split(a[1..], sep), Split(b, sep));
    }
  }

  /** Splitting undoes joining when no part contains the separator. */
  lemma {:induction false} SplitOfJoin(parts: seq<string>, sep: char)
    requires parts != []
    requires forall p :: p in parts ==> sep !in p
    ensures Split(Join([sep], parts), sep) == parts
  {
    SplitWithoutSeparator(parts[0], sep);
    if |parts| > 1 {
      SplitAppend(parts[0], sep, Join([sep], parts[1..]));
      SplitOfJoin(parts[1..], sep);
    }
  }

  /** Each group split on its own, the parts listed group after group. */
  function SplitEach(groups: seq<string>, sep: char): seq<string> {
    if groups == [] then [] else Split(groups[0], sep) + SplitEach(groups[1..], sep)
  }

  lemma {:induction false} InSplitEach(groups: seq<string>, sep: char, v: string)
    ensures v in SplitEach(groups, sep) <==> exists g :: g in groups && v in Split(g, sep)
  {
    if groups != [] {
      var first, rest := groups[0], groups[1..];
      InSplitEach(rest, sep, v);
      assert groups == [first] + rest && SplitEach(groups, sep) == Split(first, sep) + SplitEach(rest, sep);
      if v in SplitEach(rest, sep) {
        var g :| g in rest && v in Split(g, sep);
        assert g in groups;
      } else if v in SplitEach(groups, sep) {
        assert first in groups;
      }
    }
  }

  lemma {:induction false} SplitEachPush(groups: seq<string>, sep: char, last: string)
    ensures SplitEach(groups + [last], sep) == SplitEach(groups, sep) + Split(last, sep)
  {
    if groups == [] {
      assert (groups + [last])[1..] == [];
    } else {
      assert (groups + [last])[1..] == groups[1..] + [last];
      SplitEachPush(groups[1..], sep, last);
    }
  }

  /** Joining the groups and splitting once reads the same values as splitting every group. */
  lemma {:induction false} JoinThenSplitIsSplitEach(groups: seq<string>, sep: char)
    requires groups != []
    ensures Split(Join([sep], groups), sep) == SplitEach(groups, sep)
  {
    if |groups| > 1 {
      SplitAppend(groups[0], sep, Join([sep], groups[1..]));
      JoinThenSplitIsSplitEach(groups[1..], sep);
    } else {
      assert groups[1..] == [];
    }
  }

  // ---------------------------------------------------------------- replace

  /** `s.replace(old, new)`: leftmost matches first, never rescanning what was written. */
  function Replace(s: string, from: string, to: string): string
    requires from != ""
  {
    if |s| < |from| then s
    else if s[..|from|] == from then to + Replace(s[|from|..], from, to)
    else [s[0]] + Replace(s[1..], from, to)
  }

  // ---------------------------------------------------------------- the order of strings

  predicate LessEq(a: string, b: string) {
    a == [] || (b != [] && (a[0] < b[0] || (a[0] == b[0] && LessEq(a[1..], b[1..]))))
  }

  /** The order by code points: `a` is a proper prefix of `b`, or smaller at the first place where the
      two differ. */
  ghost predicate Precedes(a: string, b: string) {
    a < b || exists i :: 0 <= i < |a| && i < |b| && a[..i] == b[..i] && a[i] < b[i]
  }

  lemma {:induction false} LessEqIsPrecedes(a: string, b: string)
    ensures LessEq(a, b) <==> a == b || Precedes(a, b)
  {
    if a != [] && b != [] {
      LessEqIsPrecedes(a[1..], b[1..]);
      assert a == [a[0]] + a[1..] && b == [b[0]] + b[1..];
      if a[0] < b[0] { assert a[..0] == b[..0]; }
      if Precedes(a[1..], b[1..]) && a[0] == b[0] { PrecedesCons(a, b); }
      if Precedes(a, b) && a[0] >= b[0] { PrecedesTail(a, b); }
    }
  }

  lemma PrecedesCons(a: string, b: string)
    requires a != [] && b != [] && a[0] == b[0] && Precedes(a[1..], b[1..])
    ensures Precedes(a, b)
  {
    assert a == [a[0]] + a[1..] && b == [b[0]] + b[1..];
    if !(a[1..] < b[1..]) {
      var i :| 0 <= i < |a[1..]| && i < |b[1..]| && a[1..][..i] == b[1..][..i] && a[1..][i] < b[1..][i];
      assert a[..i + 1] == [a[0]] + a[1..][..i] && b[..i + 1] == [b[0]] + b[1..][..i];
      assert a[i + 1] < b[i + 1];
    }
  }

  lemma PrecedesTail(a: string, b: string)
    requires a != [] && b != [] && a[0] >= b[0] && Precedes(a, b)
    ensures a[0] == b[0] && Precedes(a[1..], b[1..])
  {
    if a < b {
      assert a[0] == b[0] && a[1..] < b[1..];
    } else {
      var i :| 0 <= i < |a| && i < |b| && a[..i] == b[..i] && a[i] < b[i];
      assert i > 0;
      assert a[..i][0] == b[..i][0];
      assert a[1..][..i - 1] == a[..i][1..] == b[..i][1..] == b[1..][..i - 1];
      assert a[1..][i - 1] < b[1..][i - 1];
    }
  }

  lemma LessEqTotal(a: string, b: string)
    ensures LessEq(a, b) || LessEq(b, a)
  {
  }

  lemma {:induction false} LessEqTransitive(a: string, b: string, c: string)
    requires LessEq(a, b) && LessEq(b, c)
    ensures LessEq(a, c)
  {
    if a != [] && a[0] == b[0] == c[0] {
      LessEqTransitive(a[1..], b[1..], c[1..]);
    }
  }

  lemma {:induction false} LessEqAntisymmetric(a: string, b: string)
    requires LessEq(a, b) && LessEq(b, a)
    ensures a == b
  {
    if a != [] {
      LessEqAntisymmetric(a[1..], b[1..]);
      assert a == [a[0]] + a[1..] && b == [b[0]] + b[1..];
    }
  }

  // ---------------------------------------------------------------- sorted

  predicate Ascending(xs: seq<string>) {
    forall i, j :: 0 <= i < j < |xs| ==> LessEq(xs[i], xs[j])
  }

  function Insert(x: string, xs: seq<string>): (ys: seq<string>)
    ensures multiset(ys) == multiset(xs) + multiset{x}
  {
    if xs == [] then [x]
    else if LessEq(x, xs[0]) then [x] + xs
    else
      assert xs == [xs[0]] + xs[1..];
      [xs[0]] + Insert(x, xs[1..])
  }

  lemma {:induction false} InsertAscending(x: string, xs: seq<string>)
    requires Ascending(xs)
    ensures Ascending(Insert(x, xs))
  {
    if xs != [] && LessEq(x, xs[0]) {
      forall j | 0 <= j < |xs| ensures LessEq(x, xs[j]) {
        if j > 0 { LessEqTransitive(x, xs[0], xs[j]); }
      }
    } else if xs != [] {
      InsertAscending(x, xs[1..]);
      LessEqTotal(x, xs[0]);
      var rest := Insert(x, xs[1..]);
      forall j | 0 <= j < |rest| ensures LessEq(xs[0], rest[j]) {
        assert rest[j] in multiset(rest);
        assert rest[j] == x || rest[j] in xs[1..];
      }
    }
  }

  /** `sorted(xs)` on strings. */
  function Sort(xs: seq<string>): (ys: seq<string>)
    ensures multiset(ys) == multiset(xs)
    ensures Ascending(ys)
  {
    if xs == [] then []
    else
      assert xs == [xs[0]] + xs[1..];
      InsertAscending(xs[0], Sort(xs[1..]));
      Insert(xs[0], Sort(xs[1..]))
  }

  lemma TakePush<T>(xs: seq<T>, i: nat)
    requires i < |xs|
    ensures xs[..i + 1] == xs[..i] + [xs[i]]
  {
  }

  lemma ConcatAssociative<T>(xs: seq<T>, ys: seq<T>, zs: seq<T>)
    ensures (xs + ys) + zs == xs + (ys + zs)
  {
  }

  lemma EmptyOrInhabited<T>(xs: seq<T>)
    ensures xs == [] || exists x :: x in xs
  {
    if xs != [] { assert xs[0] in xs; }
  }

  lemma SameElements(xs: seq<string>, ys: seq<string>)
    requires multiset(xs) == multiset(ys)
    ensures |xs| == |ys|
    ensures forall v :: v in xs <==> v in ys
  {
    assert |multiset(xs)| == |xs| && |multiset(ys)| == |ys|;
    forall v ensures v in xs <==> v in ys {
      assert v in xs <==> v in multiset(xs);
      assert v in ys <==> v in multiset(ys);
    }
  }

  lemma AscendingHead(xs: seq<string>, ys: seq<string>)
    requires Ascending(xs) && Ascending(ys) && xs != [] && ys != []
    requires xs[0] in ys && ys[0] in xs
    ensures xs[0] == ys[0]
  {
    var i :| 0 <= i < |ys| && ys[i] == xs[0];
    var j :| 0 <= j < |xs| && xs[j] == ys[0];
    if i > 0 && j > 0 {
      LessEqAntisymmetric(xs[0], ys[0]);
    }
  }

  lemma TailMultiset(xs: seq<string>)
    requires xs != []
    ensures multiset(xs[1..]) == multiset(xs) - multiset{xs[0]} && xs == [xs[0]] + xs[1..]
  {
    assert xs == [xs[0]] + xs[1..];
  }

  lemma {:induction false} AscendingUnique(xs: seq<string>, ys: seq<string>)
    requires Ascending(xs) && Ascending(ys) && multiset(xs) == multiset(ys)
    ensures xs == ys
  {
    SameElements(xs, ys);
    if xs != [] {
      assert xs[0] in ys && ys[0] in xs;
      AscendingHead(xs, ys);
      TailMultiset(xs);
      TailMultiset(ys);
      AscendingUnique(xs[1..], ys[1..]);
    }
  }

  /** Two lists sort alike exactly when one is a rearrangement of the other. */
  lemma SortsAlike(xs: seq<string>, ys: seq<string>)
    ensures Sort(xs) == Sort(ys) <==> multiset(xs) == multiset(ys)
    ensures Sort(Sort(xs)) == Sort(xs)
  {
    if multiset(xs) == multiset(ys) { AscendingUnique(Sort(xs), Sort(ys)); }
    AscendingUnique(Sort(Sort(xs)), Sort(xs));
  }

  /** Each string precedes the next one. */
  ghost predicate StrictlyAscending(xs: seq<string>) {
    forall i :: 0 <= i < |xs| - 1 ==> Precedes(xs[i], xs[i + 1])
  }

  lemma {:induction false} ChainAscends(xs: seq<string>, i: nat, j: nat)
    requires i < j < |xs| && forall k :: 0 <= k < |xs| - 1 ==> LessEq(xs[k], xs[k + 1])
    ensures LessEq(xs[i], xs[j])
  {
    if i + 1 < j {
      ChainAscends(xs, i, j - 1);
      assert LessEq(xs[j - 1], xs[j - 1 + 1]);
      LessEqTransitive(xs[i], xs[j - 1], xs[j]);
    }
  }

  lemma PrecedesIsStrict(a: string, b: string)
    requires Precedes(a, b)
    ensures a != b && LessEq(a, b)
  {
    LessEqIsPrecedes(a, b);
  }

  /** A list is in order and repeats nothing exactly when each string precedes the next one. */
  lemma AscendingByNeighbours(xs: seq<string>)
    ensures Ascending(xs) && NoRepeats(xs) <==> StrictlyAscending(xs)
  {
    if Ascending(xs) && NoRepeats(xs) {
      forall i | 0 <= i < |xs| - 1 ensures Precedes(xs[i], xs[i + 1]) { LessEqIsPrecedes(xs[i], xs[i + 1]); }
    }
    if StrictlyAscending(xs) {
      forall k | 0 <= k < |xs| - 1 ensures xs[k] != xs[k + 1] && LessEq(xs[k], xs[k + 1]) {
        PrecedesIsStrict(xs[k], xs[k + 1]);
      }
      forall i, j | 0 <= i < j < |xs| ensures LessEq(xs[i], xs[j]) && xs[i] != xs[j] {
        ChainAscends(xs, i, j);
        if xs[i] == xs[j] {
          if i + 1 < j { ChainAscends(xs, i + 1, j); }
          LessEqAntisymmetric(xs[i], xs[i + 1]);
        }
      }
    }
  }

  /** Sorting puts a list in order: neighbours that differ are in order. */
  lemma SortedByNeighbours(xs: seq<string>)
    ensures xs == Sort(xs) <==> forall i :: 0 <= i < |xs| - 1 ==> xs[i] == xs[i + 1] || Precedes(xs[i], xs[i + 1])
  {
    forall i | 0 <= i < |xs| - 1
      ensures LessEq(xs[i], xs[i + 1]) <==> xs[i] == xs[i + 1] || Precedes(xs[i], xs[i + 1])
    {
      LessEqIsPrecedes(xs[i], xs[i + 1]);
    }
    if forall i :: 0 <= i < |xs| - 1 ==> LessEq(xs[i], xs[i + 1]) {
      forall i, j | 0 <= i < j < |xs| ensures LessEq(xs[i], xs[j]) { ChainAscends(xs, i, j); }
      AscendingUnique(xs, Sort(xs));
    }
  }

  ghost predicate NoRepeats<T>(xs: seq<T>) {
    forall i, j :: 0 <= i < j < |xs| ==> xs[i] != xs[j]
  }

  lemma {:induction false} NoRepeatsMultiplicity<T>(xs: seq<T>, v: T)
    requires NoRepeats(xs)
    ensures multiset(xs)[v] == if v in xs then 1 else 0
  {
    if xs != [] {
      assert xs == [xs[0]] + xs[1..];
      assert xs[0] !in xs[1..];
      NoRepeatsMultiplicity(xs[1..], v);
    }
  }

  lemma RearrangedNoRepeats<T>(xs: seq<T>, ys: seq<T>)
    requires multiset(xs) == multiset(ys) && NoRepeats(ys)
    ensures NoRepeats(xs)
  {
    forall i, j | 0 <= i < j < |xs| ensures xs[i] != xs[j] {
      NoRepeatsMultiplicity(ys, xs[i]);
      assert xs == xs[..j] + [xs[j]] + xs[j + 1..];
      assert xs[i] in xs[..j];
    }
  }

  lemma NoRepeatsConcat<T>(xs: seq<T>, ys: seq<T>)
    requires NoRepeats(xs) && NoRepeats(ys)
    requires forall x :: x in xs ==> x !in ys
    ensures NoRepeats(xs + ys)
  {
    forall i, j | 0 <= i < j < |xs + ys| ensures (xs + ys)[i] != (xs + ys)[j] {
      if i < |xs| <= j { assert xs[i] in xs && ys[j - |xs|] in ys; }
    }
  }

  lemma SameMembersNoRepeats(xs: seq<string>, ys: seq<string>)
    requires NoRepeats(xs) && NoRepeats(ys)
    requires forall v :: v in xs <==> v in ys
    ensures multiset(xs) == multiset(ys)
  {
    forall v ensures multiset(xs)[v] == multiset(ys)[v] {
      NoRepeatsMultiplicity(xs, v);
      NoRepeatsMultiplicity(ys, v);
    }
  }
}
