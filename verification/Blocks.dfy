/** From the text of the ontology to its graph: cutting out the blocks of a class and reading their
    properties, and the whole drift check from the text on. */
module Blocks {
  import opened Text
  import opened Ontology
  import opened DriftCheck
  import opened DriftTheorems
  import OL = ObjectList

  /** The longest run of word characters at the start of `t`. */
  function WordRun(t: string): (n: nat)
    ensures n <= |t| && (forall k :: 0 <= k < n ==> IsWordChar(t[k])) && (n < |t| ==> !IsWordChar(t[n]))
  {
    if t != "" && IsWordChar(t[0]) then 1 + WordRun(t[1..]) else 0
  }

  // ---------------------------------------------------------------- cutting

  /** What is in front of the first full stop at the end of a line, and what is behind it. */
  function UpToStop(t: string): (r: Option<(string, string)>)
    ensures r.Some? ==> |r.value.1| < |t|
  {
    if |t| < 2 then None
    else if t[0] == '.' && t[1] == '\n' then Some(("", t[2..]))
    else
      var more := UpToStop(t[1..]);
      if more.Some? then Some(([t[0]] + more.value.0, more.value.1)) else None
  }

  datatype Block = Block(name: string, body: string)

  function Header(cls: string): string { " a amp:" + cls + " ;" }

  /** `amp:(\w+) a amp:Class ;(.*?)\.\n` at the start of `t`: the block and the text behind it. */
  function BlockAt(t: string, cls: string): (r: Option<(Block, string)>)
    ensures r.Some? ==> |r.value.1| < |t|
  {
    if !StartsWith(t, "amp:") then None
    else
      var named := t[4..];
      var n := WordRun(named);
      var behind := named[n..];
      if n == 0 || !StartsWith(behind, Header(cls)) then None
      else
        var stop := UpToStop(behind[|Header(cls)|..]);
        if stop.Some? then Some((Block(named[..n], stop.value.0), stop.value.1)) else None
  }

  /** `blocks(cls)`. */
  function Cut(t: string, cls: string): seq<Block>
    decreases |t|
  {
    if t == "" then []
    else
      var b := BlockAt(t, cls);
      if b.Some? then [b.value.0] + Cut(b.value.1, cls) else Cut(t[1..], cls)
  }

  // ---------------------------------------------------------------- reading properties

  /** `amp:prop (amp:\w+)`. */
  function RefAt(t: string, key: string): Option<string> {
    if !StartsWith(t, key + " amp:") then None
    else
      var n := WordRun(t[|key| + 5..]);
      if n == 0 then None else Some("amp:" + t[|key| + 5..|key| + 5 + n])
  }

  function RefPattern(prop: string): string -> Option<string> { t => RefAt(t, "amp:" + prop) }

  /** `ref(block, prop)`; a missing reference resolves to nothing. */
  function Ref(body: string, prop: string): Option<string> { Search(body, RefPattern(prop)) }

  /** `amp:prop (true|false)`. */
  function FlagAt(t: string, key: string): Option<bool> {
    if StartsWith(t, key + " true") then Some(true)
    else if StartsWith(t, key + " false") then Some(false)
    else None
  }

  function FlagPattern(prop: string): string -> Option<bool> { t => FlagAt(t, "amp:" + prop) }

  /** `flag(block, prop)`. */
  function Flag(body: string, prop: string): bool { Or(Search(body, FlagPattern(prop)), false) }

  function Literal(body: string, prop: string): Option<string> { Search(body, OL.OnePattern(prop)) }

  function ReadResource(b: Block): ResourceBlock {
    ResourceBlock("amp:" + b.name, Literal(b.body, "resourceModule"), OL.Many(b.body, "defaultAction"))
  }

  function ReadAttribute(b: Block): AttributeBlock {
    AttributeBlock(Ref(b.body, "attributeOf"), Literal(b.body, "attributeName"), Literal(b.body, "attributeType"),
                   Flag(b.body, "isPublic"), Flag(b.body, "isRequired"), Flag(b.body, "isSensitive"))
  }

  function ReadRelationship(b: Block): RelationshipBlock {
    RelationshipBlock(Ref(b.body, "relationshipOf"), Literal(b.body, "relationshipKind"),
                      Literal(b.body, "relationshipName"), Ref(b.body, "relationshipTarget"),
                      Flag(b.body, "relationshipPublic"), Flag(b.body, "relationshipRequired"))
  }

  function ReadExtension(b: Block): ExtensionBlock {
    ExtensionBlock(Ref(b.body, "extensionOf"), Literal(b.body, "extensionName"))
  }

  function ReadSupport(b: Block): SupportBlock {
    SupportBlock(Literal(b.body, "supportModuleName"), Literal(b.body, "supportKind"), OL.Many(b.body, "enumValue"))
  }

  function ReadCapability(b: Block): CapabilityBlock {
    CapabilityBlock(Literal(b.body, "mixTask"), Flag(b.body, "admitted"))
  }

  function MapBlocks<T>(blocks: seq<Block>, read: Block -> T): (r: seq<T>)
    ensures |r| == |blocks| && forall i :: 0 <= i < |r| ==> r[i] == read(blocks[i])
  {
    seq(|blocks|, i requires 0 <= i < |blocks| => read(blocks[i]))
  }

  /** The graph of a text, with the parse failures left to the guards. */
  function ReadRows(text: string): Graph {
    Graph(MapBlocks(Cut(text, "Domain"), (b: Block) => Literal(b.body, "domainModule")),
          MapBlocks(Cut(text, "Resource"), b => ReadResource(b)),
          MapBlocks(Cut(text, "Attribute"), b => ReadAttribute(b)),
          MapBlocks(Cut(text, "Relationship"), b => ReadRelationship(b)),
          MapBlocks(Cut(text, "Extension"), b => ReadExtension(b)),
          MapBlocks(Cut(text, "SupportModule"), b => ReadSupport(b)),
          MapBlocks(Cut(text, "GeneratorCapability"), b => ReadCapability(b)), [])
  }

  // ---------------------------------------------------------------- the guards

  /** `(?m)^amp:\w+ a amp:Class\b` from here on; `start` says whether a line starts here. */
  predicate Declares(t: string, cls: string, start: bool) {
    || (start && DeclaresHere(t, cls))
    || (t != "" && Declares(t[1..], cls, t[0] == '\n'))
  }

  predicate DeclaresHere(t: string, cls: string) {
    && StartsWith(t, "amp:")
    && var n := WordRun(t[4..]);
       var behind := t[4 + n..];
       && n > 0 && StartsWith(behind, " a amp:" + cls)
       && (|behind| == |cls| + 7 || !IsWordChar(behind[|cls| + 7]))
  }

  /** `amp:prop\s+"` somewhere. */
  predicate Asserts(t: string, prop: string) {
    || AssertsHere(t, "amp:" + prop)
    || (t != "" && Asserts(t[1..], prop))
  }

  predicate AssertsHere(t: string, key: string) {
    && StartsWith(t, key)
    && var behind := t[|key|..];
       var quoted := OL.SkipSpace(behind);
       |quoted| < |behind| && quoted != "" && quoted[0] == '"'
  }

  const CLASSES: seq<string> :=
    ["Domain", "Resource", "Attribute", "Relationship", "Extension", "SupportModule", "GeneratorCapability"]

  const REPEATABLE: seq<string> := ["enumValue", "defaultAction"]

  /** How many rows there are of each class, and how many rows with values of each list property. */
  function RowCounts(g: Graph): (counts: seq<nat>)
    ensures |counts| == |CLASSES|
  {
    [|g.domains|, |g.resources|, |g.attributes|, |g.relationships|, |g.extensions|, |g.supports|, |g.capabilities|]
  }

  predicate HasValues(g: Graph, k: nat) {
    if k == 0 then exists b :: b in g.supports && b.values != []
    else exists b :: b in g.resources && b.actions != []
  }

  /** A class the text declares, or a list property it asserts, of which the blocks hold nothing. */
  ghost predicate Vacuous(text: string, g: Graph, f: string) {
    || (exists k :: 0 <= k < |CLASSES| && CLASSES[k] == f && Declares(text, f, true) && RowCounts(g)[k] == 0)
    || (exists k :: 0 <= k < |REPEATABLE| && REPEATABLE[k] == f && Asserts(text, f) && !HasValues(g, k))
  }

  /** The guards of the parse. */
  method Guard(text: string, g: Graph) returns (failures: seq<string>)
    ensures forall f :: f in failures <==> Vacuous(text, g, f)
  {
    failures := [];
    for i := 0 to |CLASSES|
      invariant forall f :: f in failures <==>
        exists k :: 0 <= k < i && CLASSES[k] == f && Declares(text, f, true) && RowCounts(g)[k] == 0
    {
      if Declares(text, CLASSES[i], true) && RowCounts(g)[i] == 0 {
        failures := failures + [CLASSES[i]];
      }
    }
    ghost var classes := failures;
    for i := 0 to |REPEATABLE|
      invariant forall f :: f in failures <==>
        || f in classes
        || exists k :: 0 <= k < i && REPEATABLE[k] == f && Asserts(text, f) && !HasValues(g, k)
    {
      if Asserts(text, REPEATABLE[i]) && !HasValues(g, i) {
        failures := failures + [REPEATABLE[i]];
      }
    }
  }

  /** The rows of the text, with the failures of the guards. */
  ghost predicate IsGraphOf(text: string, g: Graph) {
    && g.(parseFailures := []) == ReadRows(text)
    && forall f :: f in g.parseFailures <==> Vacuous(text, ReadRows(text), f)
  }

  method ReadGraph(text: string) returns (g: Graph)
    ensures IsGraphOf(text, g)
  {
    var rows := ReadRows(text);
    var failures := Guard(text, rows);
    g := rows.(parseFailures := failures);
  }

  /** The whole program from the text of the ontology on. */
  method CheckText(text: string, steps: seq<Step>) returns (g: Graph, o: Facts, drift: seq<Finding>, noDrift: bool)
    ensures IsGraphOf(text, g) && IsProjection(g, o)
    ensures forall f :: f in drift <==> Drifts(o, steps, f)
    ensures noDrift <==> Agreement(o, steps)
  {
    g := ReadGraph(text);
    o, drift, noDrift := CheckRendered(g, steps);
  }

  // ---------------------------------------------------------------- what the guards look for

  lemma {:induction false} DeclaresSomewhere(t: string, cls: string, start: bool)
    ensures Declares(t, cls, start) <==>
            exists i :: 0 <= i <= |t| && (if i == 0 then start else t[i - 1] == '\n') && DeclaresHere(t[i..], cls)
  {
    assert t[0..] == t;
    if t != "" {
      var u := t[1..];
      DeclaresSomewhere(u, cls, t[0] == '\n');
      if i :| 0 <= i <= |t| && (if i == 0 then start else t[i - 1] == '\n') && DeclaresHere(t[i..], cls) {
        if i > 0 { assert u[i - 1..] == t[i..]; }
      }
      if i :| 0 <= i <= |u| && (if i == 0 then t[0] == '\n' else u[i - 1] == '\n') && DeclaresHere(u[i..], cls) {
        assert t[i + 1..] == u[i..] && t[i + 1 - 1] == '\n';
      }
    }
  }

  /** A name, the class, and no further character of a word. */
  ghost predicate Opens(t: string, cls: string, name: string, rest: string) {
    && t == "amp:" + (name + (" a amp:" + (cls + rest))) && name != ""
    && (forall c :: c in name ==> IsWordChar(c)) && (rest == "" || !IsWordChar(rest[0]))
  }

  lemma OpensHere(t: string, cls: string) returns (name: string, rest: string)
    requires DeclaresHere(t, cls)
    ensures Opens(t, cls, name, rest)
  {
    var n := WordRun(t[4..]);
    var behind := t[4 + n..];
    name, rest := t[4..4 + n], behind[|cls| + 7..];
    assert behind == (" a amp:" + cls) + rest == " a amp:" + (cls + rest);
    assert t == "amp:" + (name + behind);
  }

  lemma DeclaresHereMeaning(t: string, cls: string)
    ensures DeclaresHere(t, cls) <==> exists name, rest :: Opens(t, cls, name, rest)
  {
    if DeclaresHere(t, cls) { var name, rest := OpensHere(t, cls); }
    if name, rest :| Opens(t, cls, name, rest) { DeclaredName(t, cls, name, rest); }
  }

  lemma {:induction false} WordRunIs(word: string, t: string)
    requires (forall c :: c in word ==> IsWordChar(c)) && (t == "" || !IsWordChar(t[0]))
    ensures WordRun(word + t) == |word|
  {
    if word == "" {
      assert word + t == t;
    } else {
      assert (word + t)[1..] == word[1..] + t && word[0] in word;
      WordRunIs(word[1..], t);
    }
  }

  lemma DeclaredName(t: string, cls: string, name: string, rest: string)
    requires Opens(t, cls, name, rest)
    ensures DeclaresHere(t, cls)
  {
    var behind := " a amp:" + (cls + rest);
    assert t[..4] == "amp:" && t[4..] == name + behind;
    WordRunIs(name, behind);
    assert t[4 + |name|..] == behind == (" a amp:" + cls) + rest;
    assert behind[..|cls| + 7] == " a amp:" + cls;
  }

  lemma {:induction false} AssertsSomewhere(t: string, prop: string)
    ensures Asserts(t, prop) <==> exists i :: 0 <= i <= |t| && AssertsHere(t[i..], "amp:" + prop)
  {
    assert t[0..] == t;
    if t != "" {
      var u := t[1..];
      AssertsSomewhere(u, prop);
      if i :| 0 <= i <= |t| && AssertsHere(t[i..], "amp:" + prop) {
        if i > 0 { assert u[i - 1..] == t[i..]; }
      }
      if i :| 0 <= i <= |u| && AssertsHere(u[i..], "amp:" + prop) { assert t[i + 1..] == u[i..]; }
    }
  }

  /** The name of the property, white space, and a quote. */
  lemma AssertsHereMeaning(t: string, key: string)
    ensures AssertsHere(t, key) <==> exists space, rest :: Quotes(t, key, space, rest)
  {
    if AssertsHere(t, key) {
      var behind := t[|key|..];
      var space := OL.SpaceBefore(behind);
      var quoted := OL.SkipSpace(behind);
      assert t == key + behind && behind == space + quoted && quoted == "\"" + quoted[1..];
      assert Quotes(t, key, space, quoted[1..]);
    }
    if space, rest :| Quotes(t, key, space, rest) {
      assert t[..|key|] == key && t[|key|..] == space + ("\"" + rest);
      OL.SkipBlank(space, "\"" + rest);
    }
  }

  // ---------------------------------------------------------------- silence is not vacuous

  /** Some line of the text starts with a subject of this class. */
  ghost predicate LineDeclares(text: string, cls: string) {
    exists i, name, rest :: 0 <= i <= |text| && (i == 0 || text[i - 1] == '\n') && Opens(text[i..], cls, name, rest)
  }

  /** Somewhere the property has a quoted value. */
  ghost predicate Quotes(t: string, key: string, space: string, rest: string) {
    t == key + (space + ("\"" + rest)) && space != "" && OL.Blank(space)
  }

  ghost predicate TextAsserts(text: string, prop: string) {
    exists i, space, rest :: 0 <= i <= |text| && Quotes(text[i..], "amp:" + prop, space, rest)
  }

  lemma LineDeclared(text: string, cls: string)
    ensures Declares(text, cls, true) <==> LineDeclares(text, cls)
  {
    DeclaresSomewhere(text, cls, true);
    if i :| 0 <= i <= |text| && (i == 0 || text[i - 1] == '\n') && DeclaresHere(text[i..], cls) {
      var name, rest := OpensHere(text[i..], cls);
    }
    if i, name, rest :| 0 <= i <= |text| && (i == 0 || text[i - 1] == '\n') && Opens(text[i..], cls, name, rest) {
      DeclaredName(text[i..], cls, name, rest);
    }
  }

  lemma TextAsserted(text: string, prop: string)
    ensures Asserts(text, prop) <==> TextAsserts(text, prop)
  {
    AssertsSomewhere(text, prop);
    if i :| 0 <= i <= |text| && AssertsHere(text[i..], "amp:" + prop) { AssertsHereMeaning(text[i..], "amp:" + prop); }
    if i, space, rest :| 0 <= i <= |text| && Quotes(text[i..], "amp:" + prop, space, rest) {
      AssertsHereMeaning(text[i..], "amp:" + prop);
    }
  }

  lemma CountsOfText(text: string, g: Graph)
    requires g == ReadRows(text)
    ensures RowCounts(g) == [|Cut(text, CLASSES[0])|, |Cut(text, CLASSES[1])|, |Cut(text, CLASSES[2])|,
                             |Cut(text, CLASSES[3])|, |Cut(text, CLASSES[4])|, |Cut(text, CLASSES[5])|,
                             |Cut(text, CLASSES[6])|]
  {
  }

  lemma ClassCounted(text: string, g: Graph, k: nat)
    requires g == ReadRows(text) && k < |CLASSES|
    ensures RowCounts(g)[k] == |Cut(text, CLASSES[k])|
  {
    CountsOfText(text, g);
    assert k == 0 || k == 1 || k == 2 || k == 3 || k == 4 || k == 5 || k == 6;
  }

  lemma EnumValuesOfText(text: string, g: Graph)
    requires g == ReadRows(text)
    ensures HasValues(g, 0) <==> exists b :: b in Cut(text, "SupportModule") && OL.Many(b.body, "enumValue") != []
  {
    var supports := Cut(text, "SupportModule");
    forall i | 0 <= i < |supports| ensures g.supports[i].values == OL.Many(supports[i].body, "enumValue") {}
    if b :| b in supports && OL.Many(b.body, "enumValue") != [] {
      var i :| 0 <= i < |supports| && supports[i] == b;
      assert g.supports[i] in g.supports;
    }
  }

  lemma ActionsOfText(text: string, g: Graph)
    requires g == ReadRows(text)
    ensures HasValues(g, 1) <==> exists b :: b in Cut(text, "Resource") && OL.Many(b.body, "defaultAction") != []
  {
    var resources := Cut(text, "Resource");
    forall i | 0 <= i < |resources| ensures g.resources[i].actions == OL.Many(resources[i].body, "defaultAction") {}
    if b :| b in resources && OL.Many(b.body, "defaultAction") != [] {
      var i :| 0 <= i < |resources| && resources[i] == b;
      assert g.resources[i] in g.resources;
    }
  }

  lemma NothingVacuous(text: string, g: Graph)
    requires IsGraphOf(text, g) && g.parseFailures == []
    ensures forall f :: !Vacuous(text, ReadRows(text), f)
  {
    forall f ensures !Vacuous(text, ReadRows(text), f) { assert f !in g.parseFailures; }
  }

  lemma DeclaredHasRows(text: string, g: Graph, k: nat)
    requires k < |CLASSES| && !Vacuous(text, g, CLASSES[k]) && LineDeclares(text, CLASSES[k])
    ensures RowCounts(g)[k] > 0
  {
    LineDeclared(text, CLASSES[k]);
  }

  /** Silence is not vacuous: of every class that a line of the text declares, blocks were read. */
  lemma SilenceIsNotVacuous(text: string, g: Graph, o: Facts, steps: seq<Step>, k: nat)
    requires IsGraphOf(text, g) && o.parseFailures == g.parseFailures && NoDrift(o, steps)
    requires k < |CLASSES| && LineDeclares(text, CLASSES[k])
    ensures Cut(text, CLASSES[k]) != []
  {
    SilentRest(o, steps);
    NothingVacuous(text, g);
    DeclaredHasRows(text, ReadRows(text), k);
    ClassCounted(text, ReadRows(text), k);
  }

  lemma AssertedHasValues(text: string, g: Graph, k: nat)
    requires k < |REPEATABLE| && !Vacuous(text, g, REPEATABLE[k]) && TextAsserts(text, REPEATABLE[k])
    ensures HasValues(g, k)
  {
    TextAsserted(text, REPEATABLE[k]);
  }

  /** And of each list property that the text asserts, values were read. */
  lemma SilenceReadsValues(text: string, g: Graph, o: Facts, steps: seq<Step>)
    requires IsGraphOf(text, g) && o.parseFailures == g.parseFailures && NoDrift(o, steps)
    ensures TextAsserts(text, "enumValue") ==>
              exists b :: b in Cut(text, "SupportModule") && OL.Many(b.body, "enumValue") != []
    ensures TextAsserts(text, "defaultAction") ==>
              exists b :: b in Cut(text, "Resource") && OL.Many(b.body, "defaultAction") != []
  {
    SilentRest(o, steps);
    NothingVacuous(text, g);
    EnumValuesOfText(text, ReadRows(text));
    ActionsOfText(text, ReadRows(text));
    if TextAsserts(text, "enumValue") { AssertedHasValues(text, ReadRows(text), 0); }
    if TextAsserts(text, "defaultAction") { AssertedHasValues(text, ReadRows(text), 1); }
  }
}
