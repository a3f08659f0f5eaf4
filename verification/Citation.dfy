/** The citation check: pins against the lock file, and the anchors of the citations whose pin holds. */
module Citation {
  import opened Text

  datatype Pin = Pin(dep: string, version: string)

  /** The properties of an `amp:Citation` block; `None` is a missing one. */
  datatype CitationBlock = CitationBlock(id: string, file: Option<string>, line: Option<nat>, endLine: Option<nat>,
                                         symbol: Option<string>, pin: Option<string>)
  datatype Cite = Cite(id: string, file: string, line: Option<nat>, endLine: Option<nat>, symbol: string, pin: string)

  function Sentinel(v: Option<string>, prop: string): string { Or(v, Missing(prop)) }

  /** `parse_citations` on one block: an end line that is absent or 0 means the start line. */
  function ParseCitation(b: CitationBlock): Cite {
    Cite(b.id, Sentinel(b.file, "citesFile"), b.line,
         if b.endLine == None || b.endLine == Some(0) then b.line else b.endLine,
         Sentinel(b.symbol, "citesSymbol"), Sentinel(b.pin, "citesPin"))
  }

  // ---------------------------------------------------------------- pins

  datatype PinDrift = NoLock | NotLocked(pin: Pin) | OtherVersion(pin: Pin, actual: string)

  predicate Drifted(lock: Option<map<string, string>>, pin: Pin) {
    lock.None? || pin.dep !in lock.value || lock.value[pin.dep] != pin.version
  }

  ghost predicate PinFinding(pins: map<string, Pin>, lock: Option<map<string, string>>, f: PinDrift) {
    match f
    case NoLock => lock.None?
    case NotLocked(p) => lock.Some? && p in pins.Values && p.dep !in lock.value
    case OtherVersion(p, a) =>
      lock.Some? && p in pins.Values && p.dep in lock.value && a == lock.value[p.dep] != p.version
  }

  ghost predicate DriftedDep(pins: map<string, Pin>, lock: Option<map<string, string>>, dep: string) {
    exists p :: p in pins.Values && p.dep == dep && Drifted(lock, p)
  }

  method CheckPins(pins: map<string, Pin>, lock: Option<map<string, string>>)
    returns (drift: seq<PinDrift>, drifted: set<string>)
    ensures forall f :: f in drift <==> PinFinding(pins, lock, f)
    ensures forall d :: d in drifted <==> DriftedDep(pins, lock, d)
  {
    if lock.None? {
      drift, drifted := [NoLock], set p | p in pins.Values :: p.dep;
      forall d ensures d in drifted <==> DriftedDep(pins, lock, d) {
        if p :| p in pins.Values && p.dep == d && Drifted(lock, p) { assert p.dep in drifted; }
      }
      return;
    }
    drift, drifted := [], {};
    var todo := pins.Values;
    while todo != {}
      invariant todo <= pins.Values
      invariant forall f :: f in drift <==> PinFinding(pins, lock, f) && f.pin !in todo
      invariant forall d :: d in drifted <==> exists p :: p in pins.Values - todo && p.dep == d && Drifted(lock, p)
    {
      var pin :| pin in todo;
      if pin.dep !in lock.value {
        drift := drift + [NotLocked(pin)];
        drifted := drifted + {pin.dep};
      } else if lock.value[pin.dep] != pin.version {
        drift := drift + [OtherVersion(pin, lock.value[pin.dep])];
        drifted := drifted + {pin.dep};
      }
      todo := todo - {pin};
    }
  }

  // ---------------------------------------------------------------- anchors

  datatype Outcome = Skipped | MissingFile | BadRange | MissingSymbol | Anchored

  function DepOf(pins: map<string, Pin>, c: Cite): string {
    if c.pin in pins then pins[c.pin].dep else "<UNRESOLVED-PIN>"
  }

  predicate InRange(c: Cite, count: nat) {
    c.line.Some? && c.endLine.Some? && 1 <= c.line.value <= c.endLine.value <= count
  }

  /** The cited lines, joined. */
  function Window(lines: seq<string>, c: Cite): string
    requires InRange(c, |lines|)
  {
    Join("\n", lines[c.line.value - 1..c.endLine.value])
  }

  /** The outcome of one citation, given the drifted dependencies and the lines of each file. */
  function Classify(pins: map<string, Pin>, drifted: set<string>, files: map<string, seq<string>>, c: Cite): Outcome {
    if DepOf(pins, c) in drifted then Skipped
    else if c.file !in files then MissingFile
    else if !InRange(c, |files[c.file]|) then BadRange
    else if !Contains(Window(files[c.file], c), c.symbol) then MissingSymbol
    else Anchored
  }

  function With(pins: map<string, Pin>, drifted: set<string>, files: map<string, seq<string>>, cs: seq<Cite>,
                      outcomes: set<Outcome>): seq<Cite>
  {
    if cs == [] then []
    else
      var n := |cs| - 1;
      With(pins, drifted, files, cs[..n], outcomes)
      + if Classify(pins, drifted, files, cs[n]) in outcomes then [cs[n]] else []
  }

  /** Every citation falls into exactly one class. */
  lemma {:induction false} Conservation(pins: map<string, Pin>, drifted: set<string>, files: map<string, seq<string>>,
                                        cs: seq<Cite>, a: set<Outcome>, b: set<Outcome>)
    requires a !! b
    ensures |With(pins, drifted, files, cs, a + b)|
            == |With(pins, drifted, files, cs, a)| + |With(pins, drifted, files, cs, b)|
  {
    if cs != [] { Conservation(pins, drifted, files, cs[..|cs| - 1], a, b); }
  }

  lemma {:induction false} WithAll(pins: map<string, Pin>, drifted: set<string>, files: map<string, seq<string>>,
                                   cs: seq<Cite>)
    ensures With(pins, drifted, files, cs, {Skipped, MissingFile, BadRange, MissingSymbol, Anchored}) == cs
  {
    if cs != [] {
      WithAll(pins, drifted, files, cs[..|cs| - 1]);
      assert cs == cs[..|cs| - 1] + [cs[|cs| - 1]];
    }
  }

  lemma {:induction false} InWith(pins: map<string, Pin>, drifted: set<string>, files: map<string, seq<string>>,
                                  cs: seq<Cite>, outcomes: set<Outcome>, c: Cite)
    ensures c in With(pins, drifted, files, cs, outcomes) <==> c in cs && Classify(pins, drifted, files, c) in outcomes
  {
    if cs != [] {
      var n := |cs| - 1;
      InWith(pins, drifted, files, cs[..n], outcomes, c);
      assert cs == cs[..n] + [cs[n]];
    }
  }

  method CheckAnchors(pins: map<string, Pin>, drifted: set<string>, files: map<string, seq<string>>, cs: seq<Cite>)
    returns (misses: seq<Cite>, skipped: seq<Cite>, checked: nat, ghost missing: nat)
    ensures misses == With(pins, drifted, files, cs, {MissingFile, BadRange, MissingSymbol})
    ensures skipped == With(pins, drifted, files, cs, {Skipped})
    ensures checked == |With(pins, drifted, files, cs, {BadRange, MissingSymbol, Anchored})|
    ensures missing == |With(pins, drifted, files, cs, {MissingFile})|
    ensures checked + |skipped| + missing == |cs|
  {
    misses, skipped, checked := [], [], 0;
    for i := 0 to |cs|
      invariant misses == With(pins, drifted, files, cs[..i], {MissingFile, BadRange, MissingSymbol})
      invariant skipped == With(pins, drifted, files, cs[..i], {Skipped})
      invariant checked == |With(pins, drifted, files, cs[..i], {BadRange, MissingSymbol, Anchored})|
    {
      var c := cs[i];
      assert cs[..i + 1][..i] == cs[..i] && cs[..i + 1][i] == c;
      if DepOf(pins, c) in drifted {
        skipped := skipped + [c];
        continue;
      }
      if c.file !in files {
        misses := misses + [c];
        continue;
      }
      checked := checked + 1;
      if !InRange(c, |files[c.file]|) {
        misses := misses + [c];
        continue;
      }
      if !Contains(Window(files[c.file], c), c.symbol) {
        misses := misses + [c];
      }
    }
    assert cs[..|cs|] == cs;
    missing := |With(pins, drifted, files, cs, {MissingFile})|;
    ThreeParts(pins, drifted, files, cs);
  }

  lemma ThreeParts(pins: map<string, Pin>, drifted: set<string>, files: map<string, seq<string>>, cs: seq<Cite>)
    ensures |With(pins, drifted, files, cs, {BadRange, MissingSymbol, Anchored})| +
      |With(pins, drifted, files, cs, {Skipped})|
            + |With(pins, drifted, files, cs, {MissingFile})| == |cs|
  {
    WithAll(pins, drifted, files, cs);
    Conservation(pins, drifted, files, cs, {BadRange, MissingSymbol, Anchored}, {Skipped});
    Conservation(pins, drifted, files, cs, {BadRange, MissingSymbol, Anchored} + {Skipped}, {MissingFile});
    assert {BadRange, MissingSymbol, Anchored} + {Skipped} + {MissingFile}
        == {Skipped, MissingFile, BadRange, MissingSymbol, Anchored};
  }

  // ---------------------------------------------------------------- what an anchor is

  /** A word without a line break is in the one part or in the other. */
  lemma ContainsAcross(a: string, b: string, word: string)
    requires '\n' !in word
    ensures Contains(a + ("\n" + b), word) <==> Contains(a, word) || Contains(b, word)
  {
    var s := a + ("\n" + b);
    if Contains(a, word) {
      var i :| 0 <= i <= |a| && At(a, i, word);
      assert s[i..i + |word|] == a[i..i + |word|];
      assert At(s, i, word);
    }
    if Contains(b, word) {
      var i :| 0 <= i <= |b| && At(b, i, word);
      assert s[|a| + 1 + i..|a| + 1 + i + |word|] == b[i..i + |word|];
      assert At(s, |a| + 1 + i, word);
    }
    if Contains(s, word) {
      var i :| 0 <= i <= |s| && At(s, i, word);
      AcrossNoBreak(a, b, word, i);
    }
  }

  lemma AcrossNoBreak(a: string, b: string, word: string, i: nat)
    requires '\n' !in word && At(a + ("\n" + b), i, word)
    ensures Contains(a, word) || Contains(b, word)
  {
    var s := a + ("\n" + b);
    AtWord(s, i, word);
    assert s[|a|] == '\n' && forall k :: 0 <= k < |word| ==> s[i + k] == word[k] && word[k] in word;
    var k := if i <= |a| < i + |word| then |a| - i else 0;
    assert |word| > 0 ==> s[i + k] == word[k] && word[k] != '\n';
    if i + |word| <= |a| {
      assert a[i..i + |word|] == s[i..i + |word|];
      assert At(a, i, word);
    } else if i > |a| {
      assert b[i - |a| - 1..i - |a| - 1 + |word|] == s[i..i + |word|];
      assert At(b, i - |a| - 1, word);
    }
  }

  lemma {:induction false} ContainsInLines(lines: seq<string>, word: string)
    requires '\n' !in word && lines != []
    ensures Contains(Join("\n", lines), word) <==> exists k :: 0 <= k < |lines| && Contains(lines[k], word)
  {
    if |lines| > 1 {
      var rest := lines[1..];
      ContainsInLines(rest, word);
      ContainsAcross(lines[0], Join("\n", rest), word);
      assert Join("\n", lines) == lines[0] + ("\n" + Join("\n", rest));
      if k :| 0 <= k < |rest| && Contains(rest[k], word) { assert lines[k + 1] == rest[k]; }
      if k :| 0 < k < |lines| && Contains(lines[k], word) { assert rest[k - 1] == lines[k]; }
    } else {
      assert Join("\n", lines) == lines[0];
    }
  }

  /** The file's lines from the first to the last cited one are there and hold the symbol: in one of
      them, or, if the symbol has a line break itself, across them. */
  ghost predicate Cites(lines: seq<string>, first: nat, last: nat, symbol: string) {
    && 1 <= first <= last <= |lines|
    && if '\n' !in symbol then exists k :: first - 1 <= k < last && Contains(lines[k], symbol)
       else Contains(Join("\n", lines[first - 1..last]), symbol)
  }

  ghost predicate AnchorHolds(files: map<string, seq<string>>, c: Cite) {
    && c.file in files && c.line.Some? && c.endLine.Some?
    && Cites(files[c.file], c.line.value, c.endLine.value, c.symbol)
  }

  lemma WindowHolds(lines: seq<string>, c: Cite)
    requires InRange(c, |lines|)
    ensures Contains(Window(lines, c), c.symbol) <==> Cites(lines, c.line.value, c.endLine.value, c.symbol)
  {
    var first, last := c.line.value, c.endLine.value;
    var cited := lines[first - 1..last];
    assert Window(lines, c) == Join("\n", cited);
    if '\n' !in c.symbol {
      ContainsInLines(cited, c.symbol);
      if k :| 0 <= k < |cited| && Contains(cited[k], c.symbol) { assert lines[first - 1 + k] == cited[k]; }
      if k :| first - 1 <= k < last && Contains(lines[k], c.symbol) { assert cited[k - (first - 1)] == lines[k]; }
    }
  }

  /** Its dependency drifted; a citation without a known pin counts under a name of its own. */
  ghost predicate Suppressed(pins: map<string, Pin>, lock: Option<map<string, string>>, c: Cite) {
    if c.pin in pins then DriftedDep(pins, lock, pins[c.pin].dep) else DriftedDep(pins, lock, "<UNRESOLVED-PIN>")
  }

  lemma ClassMeaning(pins: map<string, Pin>, lock: Option<map<string, string>>, drifted: set<string>,
                     files: map<string, seq<string>>, c: Cite)
    requires forall d :: d in drifted <==> DriftedDep(pins, lock, d)
    ensures Classify(pins, drifted, files, c) == Skipped <==> Suppressed(pins, lock, c)
    ensures Classify(pins, drifted, files, c) == Anchored <==> !Suppressed(pins, lock, c) && AnchorHolds(files, c)
  {
    if c.file in files && InRange(c, |files[c.file]|) { WindowHolds(files[c.file], c); }
  }

  /** `main`. */
  method Check(pins: map<string, Pin>, lock: Option<map<string, string>>, files: map<string, seq<string>>,
               cs: seq<Cite>)
    returns (drift: seq<PinDrift>, misses: seq<Cite>, skipped: seq<Cite>, checked: nat, allAnchored: bool)
    ensures forall f :: f in drift <==> PinFinding(pins, lock, f)
    ensures forall c :: c in skipped <==> c in cs && Suppressed(pins, lock, c)
    ensures forall c :: c in misses <==> c in cs && !Suppressed(pins, lock, c) && !AnchorHolds(files, c)
    ensures allAnchored <==> Good(pins, lock, files, cs)
    ensures allAnchored ==> skipped == [] && checked == |cs|
  {
    var drifted;
    drift, drifted := CheckPins(pins, lock);
    ghost var missing;
    misses, skipped, checked, missing := CheckAnchors(pins, drifted, files, cs);
    forall c ensures c in skipped <==> c in cs && Suppressed(pins, lock, c) {
      InWith(pins, drifted, files, cs, {Skipped}, c);
      ClassMeaning(pins, lock, drifted, files, c);
    }
    forall c ensures c in misses <==> c in cs && !Suppressed(pins, lock, c) && !AnchorHolds(files, c) {
      InWith(pins, drifted, files, cs, {MissingFile, BadRange, MissingSymbol}, c);
      ClassMeaning(pins, lock, drifted, files, c);
    }
    allAnchored := drift == [] && misses == [];
    EmptyOrInhabited(drift);
    EmptyOrInhabited(misses);
    EmptyOrInhabited(skipped);
    NoDriftMeansPinned(pins, lock);
    if allAnchored {
      forall c ensures c !in With(pins, drifted, files, cs, {MissingFile}) {
        InWith(pins, drifted, files, cs, {MissingFile}, c);
        ClassMeaning(pins, lock, drifted, files, c);
      }
      EmptyOrInhabited(With(pins, drifted, files, cs, {MissingFile}));
    }
  }

  /** Every pin holds, and every citation's lines, inside their file, contain its symbol. */
  ghost predicate Good(pins: map<string, Pin>, lock: Option<map<string, string>>, files: map<string, seq<string>>,
                       cs: seq<Cite>)
  {
    && lock.Some? && (forall p :: p in pins.Values ==> p.dep in lock.value && lock.value[p.dep] == p.version)
    && (forall c :: c in cs ==> AnchorHolds(files, c))
  }

  lemma NoDriftMeansPinned(pins: map<string, Pin>, lock: Option<map<string, string>>)
    ensures (forall f :: !PinFinding(pins, lock, f)) <==>
            lock.Some? && forall p :: p in pins.Values ==> p.dep in lock.value && lock.value[p.dep] == p.version
  {
    if forall f :: !PinFinding(pins, lock, f) {
      assert !PinFinding(pins, lock, NoLock);
      forall p | p in pins.Values ensures p.dep in lock.value && lock.value[p.dep] == p.version {
        assert !PinFinding(pins, lock, NotLocked(p));
        if p.dep in lock.value { assert !PinFinding(pins, lock, OtherVersion(p, lock.value[p.dep])); }
      }
    }
  }

  /** The default end line never widens a citation: without one, or with 0, it is one line. */
  lemma DefaultEndIsOneLine(b: CitationBlock, count: nat)
    requires b.endLine == None || b.endLine == Some(0)
    ensures InRange(ParseCitation(b), count) <==> b.line.Some? && 1 <= b.line.value <= count
  {
  }

  /** Each property of the block goes to the field it is named for, a missing one as a sentinel. */
  lemma CitationFields(b: CitationBlock)
    ensures var c := ParseCitation(b);
            && c.id == b.id && c.line == b.line
            && c.file == (if b.file.Some? then b.file.value else "<MISSING:" + "citesFile" + ">")
            && c.symbol == (if b.symbol.Some? then b.symbol.value else "<MISSING:" + "citesSymbol" + ">")
            && c.pin == (if b.pin.Some? then b.pin.value else "<MISSING:" + "citesPin" + ">")
            && (b.endLine.Some? && b.endLine.value > 0 ==> c.endLine == b.endLine)
  {
  }

  /** A symbol that stands above the cited lines only is no anchor. */
  lemma SymbolAboveTheRange()
    ensures var lines := ["defp try_full_scan", "body"];
            var c := Cite("c", "deps/a.ex", Some(2), Some(2), "try_full_scan", "pin");
            !AnchorHolds(map["deps/a.ex" := lines], c) && Contains(lines[0], c.symbol)
  {
    var lines := ["defp try_full_scan", "body"];
    assert At(lines[0], 5, "try_full_scan");
  }
}
