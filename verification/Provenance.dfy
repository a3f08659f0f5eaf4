/** File provenance: reading `shasum` manifests, and sorting every path of two snapshots into
    handwritten, modified, removed and generated. */
module Provenance {
  import opened Text

  type Tree = map<string, string>

  // ---------------------------------------------------------------- the four lists

  function Unchanged(day0: Tree, final: Tree): set<string> {
    set p | p in day0 && p in final && final[p] == day0[p]
  }

  function Modified(day0: Tree, final: Tree): set<string> {
    set p | p in day0 && p in final && final[p] != day0[p]
  }

  function Removed(day0: Tree, final: Tree): set<string> { set p | p in day0 && p !in final }

  function Generated(day0: Tree, final: Tree): set<string> { set p | p in final && p !in day0 }

  /** Unchanged, modified and removed split the day-zero paths; unchanged, modified and generated
      split the final ones; so what was gained and lost balances. */
  lemma ProvenancePartition(day0: Tree, final: Tree)
    ensures var u, m := Unchanged(day0, final), Modified(day0, final);
            var r, g := Removed(day0, final), Generated(day0, final);
            && u + m + r == day0.Keys && u !! m && (u + m) !! r
            && u + m + g == final.Keys && (u + m) !! g
            && g !! r
            && |day0| + |g| == |final| + |r|
  {
    var u, m, r, g := Unchanged(day0, final), Modified(day0, final), Removed(day0, final), Generated(day0, final);
    assert u + m + r == day0.Keys && u + m + g == final.Keys;
    assert |u + m + r| == |u + m| + |r| && |u + m + g| == |u + m| + |g|;
  }

  function Get(tree: Tree, p: string): Option<string> { if p in tree then Some(tree[p]) else None }

  /** Where a path is listed, by what its hash was at day zero and what it is in the end. */
  lemma PathFate(day0: Tree, final: Tree, p: string, before: Option<string>, after: Option<string>)
    requires before == Get(day0, p) && after == Get(final, p)
    ensures p in Unchanged(day0, final) <==> before.Some? && after == before
    ensures p in Modified(day0, final) <==> before.Some? && after.Some? && after != before
    ensures p in Removed(day0, final) <==> before.Some? && after.None?
    ensures p in Generated(day0, final) <==> before.None? && after.Some?
  {
  }

  // ---------------------------------------------------------------- the lines of a text file

  /** Universal newlines: a text file is read with `\r\n` and `\r` as `\n`. */
  function Universal(text: string): (r: string)
    ensures '\r' !in r
  {
    if text == "" then ""
    else if text[0] != '\r' then [text[0]] + Universal(text[1..])
    else if |text| > 1 && text[1] == '\n' then "\n" + Universal(text[2..])
    else "\n" + Universal(text[1..])
  }

  function Continue(c: char, lines: seq<string>): seq<string> {
    if lines == [] then [[c]] else [[c] + lines[0]] + lines[1..]
  }

  /** The lines, each with the line break that ends it. */
  function KeepLines(text: string): seq<string> {
    if text == "" then []
    else if text[0] == '\n' then ["\n"] + KeepLines(text[1..])
    else Continue(text[0], KeepLines(text[1..]))
  }

  /** What `for line in open(path)` goes through. */
  function Lines(text: string): seq<string> { KeepLines(Universal(text)) }

  /** A carriage return, with a line feed behind it or without one, is one line break. */
  lemma CarriageReturns(a: string, b: string)
    requires '\r' !in a
    ensures Universal(a + ("\r\n" + b)) == a + ("\n" + Universal(b))
    ensures (b == "" || b[0] != '\n') ==> Universal(a + ("\r" + b)) == a + ("\n" + Universal(b))
  {
    UniversalAfter(a, "\r\n" + b);
    UniversalAfter(a, "\r" + b);
    assert ("\r\n" + b)[2..] == b && ("\r" + b)[1..] == b;
  }

  // ---------------------------------------------------------------- manifests

  function StripLeft(s: string): (r: string)
    ensures r == "" || !IsSpace(r[0])
    ensures |r| <= |s|
  {
    if s != "" && IsSpace(s[0]) then StripLeft(s[1..]) else s
  }

  function StripRight(s: string): (r: string)
    ensures r == "" || !IsSpace(r[|r| - 1])
    ensures r <= s
  {
    if s != "" && IsSpace(s[|s| - 1]) then StripRight(s[..|s| - 1]) else s
  }

  /** `s.strip()`. */
  function Strip(s: string): string { StripLeft(StripRight(s)) }

  predicate Trimmed(s: string) { s == "" || (!IsSpace(s[0]) && !IsSpace(s[|s| - 1])) }

  /** `s.rstrip("\n")`. */
  function ChopNewlines(s: string): string {
    if s != "" && s[|s| - 1] == '\n' then ChopNewlines(s[..|s| - 1]) else s
  }

  /** `s.partition("  ")`: before and after the first double space. */
  function Partition(s: string): (string, string) {
    if |s| < 2 then (s, "")
    else if s[0] == ' ' && s[1] == ' ' then ("", s[2..])
    else
      var rest := Partition(s[1..]);
      ([s[0]] + rest.0, rest.1)
  }

  /** One manifest line: path and hash, unless the line is blank or names no path. */
  function ParseLine(raw: string): Option<(string, string)> {
    var line := ChopNewlines(raw);
    if Strip(line) == "" then None
    else
      var (hash, path) := Partition(line);
      if Strip(path) == "" then None else Some((Strip(path), Strip(hash)))
  }

  /** The hash of the last line that names this path. */
  function LastHash(lines: seq<string>, path: string): Option<string> {
    if lines == [] then None
    else
      var parsed := ParseLine(lines[|lines| - 1]);
      if parsed.Some? && parsed.value.0 == path then Some(parsed.value.1) else LastHash(lines[..|lines| - 1], path)
  }

  /** The tree maps exactly the paths the lines name, each to its last hash. */
  ghost predicate IsTreeOf(lines: seq<string>, tree: Tree) {
    && (forall p :: p in tree <==> LastHash(lines, p).Some?)
    && (forall p :: p in tree ==> LastHash(lines, p) == Some(tree[p]))
  }

  /** `manifest_paths` on the text of the file; a missing file is an empty tree. */
  method ManifestPaths(text: Option<string>) returns (tree: Tree)
    ensures IsTreeOf(Lines(Or(text, "")), tree)
  {
    tree := map[];
    if text.None? {
      return;
    }
    var lines := Lines(text.value);
    for i := 0 to |lines|
      invariant IsTreeOf(lines[..i], tree)
    {
      assert lines[..i + 1][..i] == lines[..i];
      var line := ChopNewlines(lines[i]);
      if Strip(line) == "" {
        continue;
      }
      var (hash, path) := Partition(line);
      if Strip(path) != "" {
        tree := tree[Strip(path) := Strip(hash)];
      }
    }
    assert lines[..|lines|] == lines;
  }

  // ---------------------------------------------------------------- round trip

  predicate IsHash(h: string) { h != "" && forall c :: c in h ==> !IsSpace(c) }

  function PrintLine(path: string, hash: string): string { hash + ("  " + (path + "\n")) }

  lemma StripIsTrimmed(s: string)
    ensures Trimmed(Strip(s))
    ensures Trimmed(s) ==> Strip(s) == s
  {
    StripLeftEnd(StripRight(s));
  }

  predicate AllSpace(s: string) { forall c :: c in s ==> IsSpace(c) }

  lemma {:induction false} StripLeftParts(s: string) returns (a: string)
    ensures s == a + StripLeft(s) && AllSpace(a)
  {
    if s != "" && IsSpace(s[0]) {
      a := StripLeftParts(s[1..]);
      assert s == [s[0]] + s[1..];
      a := [s[0]] + a;
    } else {
      a := "";
    }
  }

  lemma {:induction false} StripRightParts(s: string) returns (b: string)
    ensures s == StripRight(s) + b && AllSpace(b)
  {
    if s != "" && IsSpace(s[|s| - 1]) {
      b := StripRightParts(s[..|s| - 1]);
      assert s == s[..|s| - 1] + [s[|s| - 1]];
      b := b + [s[|s| - 1]];
    } else {
      b := "";
    }
  }

  /** Stripping takes away white space at both ends, and all of it. */
  lemma StripMeaning(s: string) returns (a: string, b: string)
    ensures s == a + Strip(s) + b && AllSpace(a) && AllSpace(b) && Trimmed(Strip(s))
  {
    b := StripRightParts(s);
    a := StripLeftParts(StripRight(s));
    StripIsTrimmed(s);
  }

  /** The first double space divides the line; without one there is no path. */
  lemma {:induction false} PartitionMeaning(s: string)
    ensures Contains(s, "  ") ==> s == Partition(s).0 + ("  " + Partition(s).1)
    ensures !Contains(Partition(s).0, "  ")
    ensures !Contains(s, "  ") ==> Partition(s) == (s, "")
  {
    if |s| >= 2 && !(s[0] == ' ' && s[1] == ' ') {
      PartitionMeaning(s[1..]);
      PartitionTail(s);
      if Contains(s, "  ") {
        var rest := Partition(s[1..]);
        assert s == [s[0]] + s[1..] == ([s[0]] + rest.0) + ("  " + rest.1);
      }
    } else if |s| >= 2 {
      assert s == "" + ("  " + s[2..]) && At(s, 0, "  ");
    }
  }

  lemma DoubleSpaceTail(s: string)
    requires |s| >= 2 && !(s[0] == ' ' && s[1] == ' ')
    ensures Contains(s, "  ") <==> Contains(s[1..], "  ")
  {
    if i :| 0 <= i <= |s| && At(s, i, "  ") {
      assert s[..2] == [s[0], s[1]] && "  "[0] == ' ' == "  "[1];
      assert At(s[1..], i - 1, "  ");
    }
    if i :| 0 <= i <= |s[1..]| && At(s[1..], i, "  ") { assert At(s, i + 1, "  "); }
  }

  /** What is in front of the first double space is a prefix, and so holds none itself. */
  lemma PartitionTail(s: string)
    requires |s| >= 2 && !(s[0] == ' ' && s[1] == ' ')
    requires !Contains(Partition(s[1..]).0, "  ")
    requires Contains(s[1..], "  ") ==> s[1..] == Partition(s[1..]).0 + ("  " + Partition(s[1..]).1)
    requires !Contains(s[1..], "  ") ==> Partition(s[1..]) == (s[1..], "")
    ensures Contains(s, "  ") <==> Contains(s[1..], "  ")
    ensures !Contains([s[0]] + Partition(s[1..]).0, "  ")
    ensures !Contains(s, "  ") ==> [s[0]] + Partition(s[1..]).0 == s
  {
    DoubleSpaceTail(s);
    var first := Partition(s[1..]).0;
    var front := [s[0]] + first;
    assert first <= s[1..];
    if |front| >= 2 {
      assert front[1] == first[0] == s[1..][0] == s[1];
      DoubleSpaceTail(front);
      assert front[1..] == first;
    }
  }

  lemma {:induction false} StripLeftEnd(s: string)
    requires s == "" || !IsSpace(s[|s| - 1])
    ensures StripLeft(s) == "" || !IsSpace(StripLeft(s)[|StripLeft(s)| - 1])
  {
    if s != "" && IsSpace(s[0]) { StripLeftEnd(s[1..]); }
  }

  lemma {:induction false} ChopKeepsFront(a: string, b: string)
    ensures b != "" && b[|b| - 1] == '\n' ==> ChopNewlines(a + b) == ChopNewlines(a + b[..|b| - 1])
    ensures a != "" && a[|a| - 1] != '\n' && b == "" ==> ChopNewlines(a + b) == a
  {
    if b != "" {
      assert (a + b)[..|a + b| - 1] == a + b[..|b| - 1];
    } else {
      assert a + b == a;
    }
  }

  lemma {:induction false} ChopPath(front: string, path: string)
    requires front != "" && front[|front| - 1] != '\n'
    ensures ChopNewlines(front + path) == front + ChopNewlines(path)
  {
    ChopKeepsFront(front, path);
    if path != "" && path[|path| - 1] == '\n' {
      ChopPath(front, path[..|path| - 1]);
    } else if path != "" {
      assert (front + path)[|front + path| - 1] == path[|path| - 1];
    }
  }

  lemma {:induction false} PartitionAfterHash(hash: string, rest: string)
    requires forall c :: c in hash ==> !IsSpace(c)
    ensures Partition(hash + ("  " + rest)) == (hash, rest)
  {
    var s := hash + ("  " + rest);
    if hash == "" {
      assert s == "  " + rest && s[2..] == rest;
    } else {
      assert s[1..] == hash[1..] + ("  " + rest);
      assert hash[0] in hash && s[0] == hash[0];
      PartitionAfterHash(hash[1..], rest);
      assert hash == [hash[0]] + hash[1..];
    }
  }

  lemma {:induction false} StripNonBlank(s: string)
    requires exists i :: 0 <= i < |s| && !IsSpace(s[i])
    ensures Strip(s) != ""
  {
    var i :| 0 <= i < |s| && !IsSpace(s[i]);
    StripRightKeeps(s, i);
    StripLeftKeeps(StripRight(s), i);
  }

  lemma {:induction false} StripRightKeeps(s: string, i: nat)
    requires i < |s| && !IsSpace(s[i])
    ensures i < |StripRight(s)| && StripRight(s)[i] == s[i]
  {
    if IsSpace(s[|s| - 1]) { StripRightKeeps(s[..|s| - 1], i); }
  }

  lemma {:induction false} StripLeftKeeps(s: string, i: nat)
    requires i < |s| && !IsSpace(s[i])
    ensures StripLeft(s) != ""
  {
    if IsSpace(s[0]) { StripLeftKeeps(s[1..], i - 1); }
  }

  lemma ParsePrintedLine(path: string, hash: string)
    requires IsHash(hash)
    ensures ParseLine(PrintLine(path, hash)) == Some((path, hash)) <==> Trimmed(path) && path != ""
  {
    var front := hash + "  ";
    assert PrintLine(path, hash) == front + (path + "\n");
    ChopPath(front, path + "\n");
    assert (path + "\n")[..|path|] == path;
    var chopped := ChopNewlines(path);
    assert ChopNewlines(path + "\n") == chopped;
    var line := front + chopped;
    assert hash[0] in hash && line[0] == hash[0];
    StripNonBlank(line);
    assert line == hash + ("  " + chopped);
    PartitionAfterHash(hash, chopped);
    assert hash[|hash| - 1] in hash;
    StripIsTrimmed(hash);
    StripIsTrimmed(chopped);
  }

  // ---------------------------------------------------------------- what can be read at all

  /** A path that a manifest line can name. */
  predicate Readable(path: string) { Trimmed(path) && path != "" && '\n' !in path && '\r' !in path }

  /** A line break only at the end. */
  predicate IsLine(line: string) {
    '\r' !in line && forall i :: 0 <= i < |line| - 1 ==> line[i] != '\n'
  }

  lemma ContinueLine(c: char, lines: seq<string>)
    requires c != '\n' && c != '\r' && forall l :: l in lines ==> l != "" && IsLine(l)
    ensures forall l :: l in Continue(c, lines) ==> l != "" && IsLine(l)
  {
    if lines != [] {
      var first := [c] + lines[0];
      assert lines[0] in lines;
      assert forall i :: 0 < i < |first| ==> first[i] == lines[0][i - 1];
      assert IsLine(first);
      assert forall l :: l in Continue(c, lines) ==> l == first || l in lines;
    }
  }

  lemma {:induction false} LinesAreLines(text: string)
    requires '\r' !in text
    ensures forall l :: l in KeepLines(text) ==> l != "" && IsLine(l)
  {
    if text != "" {
      LinesAreLines(text[1..]);
      assert text[0] in text;
      if text[0] != '\n' { ContinueLine(text[0], KeepLines(text[1..])); }
    }
  }

  lemma {:induction false} JoinContinued(c: char, lines: seq<string>)
    ensures Join("", Continue(c, lines)) == [c] + Join("", lines)
  {
    if |lines| > 1 {
      assert Continue(c, lines)[1..] == lines[1..];
    }
  }

  /** The lines, put together again, are the text with its line breaks made universal. */
  lemma {:induction false} LinesOfText(text: string)
    ensures Join("", KeepLines(text)) == text
  {
    if text != "" {
      var rest := KeepLines(text[1..]);
      LinesOfText(text[1..]);
      if text[0] == '\n' {
        assert (["\n"] + rest)[1..] == rest;
      } else {
        JoinContinued(text[0], rest);
      }
      assert text == [text[0]] + text[1..];
    }
  }

  lemma {:induction false} StripWithin(s: string, c: char)
    requires c !in s
    ensures c !in StripRight(s) && c !in StripLeft(s)
  {
    if s != "" && IsSpace(s[|s| - 1]) { StripWithin(s[..|s| - 1], c); }
    if s != "" && IsSpace(s[0]) { StripWithin(s[1..], c); }
  }

  lemma {:induction false} PartitionWithin(s: string, c: char)
    requires c !in s
    ensures c !in Partition(s).1
  {
    if |s| >= 2 && !(s[0] == ' ' && s[1] == ' ') { PartitionWithin(s[1..], c); }
  }

  lemma ChoppedLine(line: string)
    requires IsLine(line)
    ensures '\n' !in ChopNewlines(line) && '\r' !in ChopNewlines(line)
  {
    if line != "" && line[|line| - 1] == '\n' {
      var front := line[..|line| - 1];
      assert '\n' !in front;
      assert ChopNewlines(front) == front;
    }
  }

  /** Whatever a line of a manifest names is readable. */
  lemma ParsedIsReadable(line: string)
    requires IsLine(line) && ParseLine(line).Some?
    ensures Readable(ParseLine(line).value.0) && Trimmed(ParseLine(line).value.1)
  {
    StripIsTrimmed(Partition(ChopNewlines(line)).0);
    ChoppedLine(line);
    var path := Partition(ChopNewlines(line)).1;
    PartitionWithin(ChopNewlines(line), '\n');
    PartitionWithin(ChopNewlines(line), '\r');
    StripWithin(path, '\n');
    StripWithin(path, '\r');
    StripWithin(StripRight(path), '\n');
    StripWithin(StripRight(path), '\r');
    StripIsTrimmed(path);
  }

  lemma {:induction false} NamedIsReadable(lines: seq<string>, p: string)
    requires forall l :: l in lines ==> IsLine(l)
    requires LastHash(lines, p).Some?
    ensures Readable(p)
  {
    var n := |lines| - 1;
    var parsed := ParseLine(lines[n]);
    if parsed.Some? && parsed.value.0 == p {
      ParsedIsReadable(lines[n]);
    } else {
      NamedIsReadable(lines[..n], p);
    }
  }

  // ---------------------------------------------------------------- a printed manifest

  datatype Entry = Entry(path: string, hash: string)

  /** The text of a manifest. */
  function PrintManifest(entries: seq<Entry>): string {
    if entries == [] then "" else PrintLine(entries[0].path, entries[0].hash) + PrintManifest(entries[1..])
  }

  function PrintLines(entries: seq<Entry>): seq<string> {
    seq(|entries|, i requires 0 <= i < |entries| => PrintLine(entries[i].path, entries[i].hash))
  }

  lemma {:induction false} UniversalAfter(a: string, b: string)
    requires '\r' !in a
    ensures Universal(a + b) == a + Universal(b)
  {
    if a == "" {
      assert a + b == b;
    } else {
      assert (a + b)[1..] == a[1..] + b && a[0] in a;
      UniversalAfter(a[1..], b);
      assert a == [a[0]] + a[1..];
    }
  }

  lemma {:induction false} FirstLine(front: string, rest: string)
    requires '\n' !in front
    ensures KeepLines(front + ("\n" + rest)) == [front + "\n"] + KeepLines(rest)
  {
    var text := front + ("\n" + rest);
    if front == "" {
      assert text == "\n" + rest && text[1..] == rest && front + "\n" == "\n";
    } else {
      assert text[1..] == front[1..] + ("\n" + rest) && text[0] == front[0] && front[0] in front;
      FirstLine(front[1..], rest);
      assert [front[0]] + (front[1..] + "\n") == front + "\n";
    }
  }

  lemma PrintedLineFirst(path: string, hash: string, rest: string)
    requires IsHash(hash) && '\n' !in path && '\r' !in path
    ensures Lines(PrintLine(path, hash) + rest) == [PrintLine(path, hash)] + Lines(rest)
  {
    var front := hash + ("  " + path);
    assert PrintLine(path, hash) == front + "\n";
    UniversalAfter(front + "\n", rest);
    assert front + ("\n" + Universal(rest)) == front + "\n" + Universal(rest);
    FirstLine(front, Universal(rest));
  }

  lemma {:induction false} LinesOfPrinted(entries: seq<Entry>)
    requires forall e :: e in entries ==> IsHash(e.hash) && '\n' !in e.path && '\r' !in e.path
    ensures Lines(PrintManifest(entries)) == PrintLines(entries)
  {
    if entries != [] {
      var e := entries[0];
      assert e in entries;
      PrintedLineFirst(e.path, e.hash, PrintManifest(entries[1..]));
      LinesOfPrinted(entries[1..]);
      assert PrintLines(entries) == [PrintLine(e.path, e.hash)] + PrintLines(entries[1..]);
    }
  }

  ghost predicate Hashed(entries: seq<Entry>) {
    forall e :: e in entries ==> IsHash(e.hash)
  }

  ghost predicate DistinctPaths(entries: seq<Entry>) {
    forall i, j :: 0 <= i < j < |entries| ==> entries[i].path != entries[j].path
  }

  ghost predicate AllReadable(entries: seq<Entry>) {
    forall e :: e in entries ==> Readable(e.path)
  }

  lemma {:induction false} ManifestEntries(entries: seq<Entry>, p: string)
    requires Hashed(entries) && DistinctPaths(entries) && AllReadable(entries)
    ensures forall h :: LastHash(PrintLines(entries), p) == Some(h) <==> Entry(p, h) in entries
  {
    if entries != [] {
      var n := |entries| - 1;
      var last := entries[n];
      assert last in entries;
      ParsePrintedLine(last.path, last.hash);
      assert PrintLines(entries)[..n] == PrintLines(entries[..n]);
      forall e | e in entries[..n] ensures e in entries {}
      ManifestEntries(entries[..n], p);
      assert entries == entries[..n] + [last];
      assert forall h :: Entry(p, h) in entries[..n] && p == last.path ==> false;
    }
  }

  /** The tree has exactly the entries. */
  ghost predicate HasEntries(tree: Tree, entries: seq<Entry>) {
    forall p, h :: (p in tree && tree[p] == h) <==> Entry(p, h) in entries
  }

  /** Parsing the text of a printed manifest of distinct paths gives back its entries if and only
      if every path is trimmed, not empty and free of line breaks. */
  lemma ManifestRoundTrip(entries: seq<Entry>, tree: Tree)
    requires Hashed(entries) && DistinctPaths(entries)
    requires IsTreeOf(Lines(PrintManifest(entries)), tree)
    ensures HasEntries(tree, entries) <==> AllReadable(entries)
  {
    var lines := Lines(PrintManifest(entries));
    if HasEntries(tree, entries) {
      LinesAreLines(Universal(PrintManifest(entries)));
      forall e | e in entries ensures Readable(e.path) {
        assert e == Entry(e.path, e.hash);
        NamedIsReadable(lines, e.path);
      }
    }
    if AllReadable(entries) {
      LinesOfPrinted(entries);
      forall p, h ensures (p in tree && tree[p] == h) <==> Entry(p, h) in entries {
        ManifestEntries(entries, p);
        assert LastHash(lines, p) == Some(h) <==> Entry(p, h) in entries;
      }
    }
  }

  lemma OneLineTree(line: string, path: string, hash: string)
    requires ParseLine(line) == Some((path, hash))
    ensures IsTreeOf([line], map[path := hash])
  {
    assert [line][..0] == [];
  }

  lemma UnnamedLine(lines: seq<string>, line: string, tree: Tree)
    requires IsTreeOf(lines, tree) && ParseLine(line).None?
    ensures IsTreeOf(lines + [line], tree)
  {
    assert (lines + [line])[..|lines|] == lines;
  }

  /** One line: its path is read back, with its hash and nothing else, if and only if it is
      trimmed, not empty and free of line breaks; double spaces inside it do no harm. */
  lemma LineRoundTrip(path: string, hash: string)
    requires IsHash(hash)
    ensures IsTreeOf(Lines(PrintLine(path, hash)), map[path := hash]) <==> Readable(path)
  {
    var lines := Lines(PrintLine(path, hash));
    if IsTreeOf(lines, map[path := hash]) {
      LinesAreLines(Universal(PrintLine(path, hash)));
      NamedIsReadable(lines, path);
    }
    if Readable(path) {
      assert PrintLine(path, hash) + "" == PrintLine(path, hash);
      PrintedLineFirst(path, hash, "");
      assert lines == [PrintLine(path, hash)];
      ParsePrintedLine(path, hash);
      OneLineTree(lines[0], path, hash);
    }
  }

  lemma UnnamedPrinted()
    ensures Lines("b\n") == ["b\n"] && ParseLine("b\n").None?
  {
    UniversalAfter("b\n", "");
    assert "b\n" + "" == "b\n";
    FirstLine("b", "");
    assert "b" + ("\n" + "") == "b\n" && KeepLines("") == [];
    ChopPath("b", "\n");
    assert "\n"[..0] == "";
  }

  /** A path with a line break in it loses what follows the break. */
  lemma BrokenPath()
    ensures IsTreeOf(Lines(PrintLine("a\nb", "h")), map["a" := "h"])
  {
    assert PrintLine("a\nb", "h") == PrintLine("a", "h") + "b\n";
    PrintedLineFirst("a", "h", "b\n");
    UnnamedPrinted();
    ParsePrintedLine("a", "h");
    OneLineTree(PrintLine("a", "h"), "a", "h");
    UnnamedLine([PrintLine("a", "h")], "b\n", map["a" := "h"]);
  }
}
