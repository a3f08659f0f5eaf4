/** What the text of the ontology says is what is read from it: a printed block is read as its facts,
    and under silence these reach the argv. */
module BlockTheorems {
  import opened Text
  import opened Ontology
  import opened DriftCheck
  import opened DriftTheorems
  import opened Blocks
  import opened Documents
  import OL = ObjectList
  import T = Turtle

  // ---------------------------------------------------------------- printed properties

  function PrintRef(prop: string, name: string): string { ("amp:" + prop) + (" amp:" + name) }

  function PrintFlag(prop: string, on: bool): string { ("amp:" + prop) + (if on then " true" else " false") }

  /** The body holds this printed property, and nothing before it matches the property's pattern. */
  ghost predicate HoldsLiteral(body: string, prop: string, v: string) {
    exists pre, rest ::
      && body == pre + (OL.PrintProperty(prop, v) + rest)
      && NoMatchIn(pre, OL.PrintProperty(prop, v) + rest, OL.OnePattern(prop))
  }

  ghost predicate HoldsRef(body: string, prop: string, name: string) {
    exists pre, rest ::
      && body == pre + (PrintRef(prop, name) + rest) && (rest == "" || !IsWordChar(rest[0]))
      && NoMatchIn(pre, PrintRef(prop, name) + rest, RefPattern(prop))
  }

  ghost predicate PrintsFlag(body: string, prop: string, on: bool) {
    exists pre, rest ::
      && body == pre + (PrintFlag(prop, on) + rest)
      && NoMatchIn(pre, PrintFlag(prop, on) + rest, FlagPattern(prop))
  }

  /** A flag that is not set may be left out. */
  ghost predicate HoldsFlag(body: string, prop: string, on: bool) {
    PrintsFlag(body, prop, on) || (!on && Search(body, FlagPattern(prop)).None?)
  }

  ghost predicate HoldsList(body: string, prop: string, vs: seq<string>) {
    exists pre, space, gaps, rest ::
      && |vs| == |gaps| + 1 && OL.BlankGaps(gaps) && OL.Terminates(rest) && OL.Blank(space) && space != ""
      && body == pre + (("amp:" + prop) + (space + (OL.PrintList(vs, gaps) + rest)))
      && NoMatchIn(pre, ("amp:" + prop) + (space + (OL.PrintList(vs, gaps) + rest)), OL.ListPattern(prop))
  }

  lemma LiteralRead(body: string, prop: string, v: string)
    requires HoldsLiteral(body, prop, v)
    ensures Literal(body, prop) == Some(v) <==> OL.Plain(v)
  {
    var pre, rest :|
      && body == pre + (OL.PrintProperty(prop, v) + rest)
      && NoMatchIn(pre, OL.PrintProperty(prop, v) + rest, OL.OnePattern(prop));
    SearchAfter(pre, OL.PrintProperty(prop, v) + rest, OL.OnePattern(prop));
    OL.PrintedOneAt(prop, v, rest);
  }

  lemma PrintedRefAt(prop: string, name: string, rest: string)
    requires IsWord(name) && (rest == "" || !IsWordChar(rest[0]))
    ensures RefAt(PrintRef(prop, name) + rest, "amp:" + prop) == Some("amp:" + name)
  {
    var t := PrintRef(prop, name) + rest;
    assert t == ("amp:" + prop) + (" amp:" + (name + rest));
    OL.PrintedKey(name + rest, "amp:" + prop, " amp:", |prop| + 9);
    WordRunIs(name, rest);
    assert t[|prop| + 9..][..|name|] == name;
    assert t[|prop| + 9..|prop| + 9 + |name|] == t[|prop| + 9..][..|name|];
  }

  lemma RefRead(body: string, prop: string, name: string)
    requires HoldsRef(body, prop, name) && IsWord(name)
    ensures Ref(body, prop) == Some("amp:" + name)
  {
    var pre, rest :|
      && body == pre + (PrintRef(prop, name) + rest) && (rest == "" || !IsWordChar(rest[0]))
      && NoMatchIn(pre, PrintRef(prop, name) + rest, RefPattern(prop));
    SearchAfter(pre, PrintRef(prop, name) + rest, RefPattern(prop));
    PrintedRefAt(prop, name, rest);
  }

  lemma PrintedFlagAt(key: string, on: bool, rest: string)
    ensures FlagAt((key + (if on then " true" else " false")) + rest, key) == Some(on)
  {
    var t := (key + (if on then " true" else " false")) + rest;
    assert t[..|key| + 5] == key + (if on then " true" else " fals");
    assert (key + " true")[|key| + 1] == 't' && t[..|key| + 5][|key| + 1] == if on then 't' else 'f';
    if !on { assert t[..|key| + 6] == key + " false"; }
  }

  lemma FlagRead(body: string, prop: string, on: bool)
    requires HoldsFlag(body, prop, on)
    ensures Flag(body, prop) == on
  {
    if PrintsFlag(body, prop, on) {
      var pre, rest :|
        && body == pre + (PrintFlag(prop, on) + rest)
        && NoMatchIn(pre, PrintFlag(prop, on) + rest, FlagPattern(prop));
      SearchAfter(pre, PrintFlag(prop, on) + rest, FlagPattern(prop));
      PrintedFlagAt("amp:" + prop, on, rest);
    }
  }

  /** A list is read as its escaped values, which are the values themselves where all are plain. */
  lemma ListRead(body: string, prop: string, vs: seq<string>)
    requires HoldsList(body, prop, vs)
    ensures OL.Many(body, prop) == vs <==> forall v :: v in vs ==> OL.Plain(v)
  {
    var pre, space, gaps, rest :|
      && |vs| == |gaps| + 1 && OL.BlankGaps(gaps) && OL.Terminates(rest) && OL.Blank(space) && space != ""
      && body == pre + (("amp:" + prop) + (space + (OL.PrintList(vs, gaps) + rest)))
      && NoMatchIn(pre, ("amp:" + prop) + (space + (OL.PrintList(vs, gaps) + rest)), OL.ListPattern(prop));
    OL.ManyRoundTrip(pre, prop, space, vs, gaps, rest);
    forall i | 0 <= i < |vs| ensures OL.Many(body, prop)[i] == vs[i] <==> OL.Plain(vs[i]) { OL.EscapedIffPlain(vs[i]); }
    assert OL.Many(body, prop) == vs <==> forall i :: 0 <= i < |vs| ==> OL.Plain(vs[i]);
  }

  // ---------------------------------------------------------------- a printed body

  /** A property of a printed body. */
  datatype Property =
    | IsRef(prop: string, name: string)
    | IsText(prop: string, value: string)
    | IsFlag(prop: string, on: bool)

  const SEPARATOR: string := " ;\n    "

  function Print(p: Property): string {
    match p
    case IsRef(prop, name) => PrintRef(prop, name)
    case IsText(prop, v) => OL.PrintProperty(prop, v)
    case IsFlag(prop, on) => PrintFlag(prop, on)
  }

  function PrintBody(ps: seq<Property>): string {
    if ps == [] then "" else Print(ps[0]) + (SEPARATOR + PrintBody(ps[1..]))
  }

  /** The property name as a whole word, at the start of `t`. */
  predicate KeyHere(t: string, prop: string) {
    |t| > |prop| + 4 && StartsWith(t, "amp:" + prop) && IsSpace(t[|prop| + 4])
  }

  ghost predicate NoKeyIn(pre: string, rest: string, prop: string) {
    forall i :: 0 <= i < |pre| ==> !KeyHere((pre + rest)[i..], prop)
  }

  lemma NoKeyHere(t: string, prop: string, more: string)
    requires !KeyHere(t, prop) && more != "" && IsSpace(more[0])
    ensures !StartsWith(t, ("amp:" + prop) + more)
  {
    var key := "amp:" + prop;
    assert (key + more)[..|key|] == key && (key + more)[|key|] == more[0];
    assert |t| >= |key + more| ==>
      t[..|key + more|][..|key|] == t[..|key|] && t[..|key + more|][|key|] == t[|key|];
  }

  lemma NoKeyNoMatch(pre: string, rest: string, prop: string)
    requires NoKeyIn(pre, rest, prop)
    ensures NoMatchIn(pre, rest, OL.OnePattern(prop)) && NoMatchIn(pre, rest, RefPattern(prop))
    ensures NoMatchIn(pre, rest, FlagPattern(prop))
  {
    forall i | 0 <= i < |pre|
      ensures OL.OnePattern(prop)((pre + rest)[i..]).None? && RefPattern(prop)((pre + rest)[i..]).None?
      ensures FlagPattern(prop)((pre + rest)[i..]).None?
    {
      var t := (pre + rest)[i..];
      NoKeyHere(t, prop, " \"");
      NoKeyHere(t, prop, " amp:");
      NoKeyHere(t, prop, " true");
      NoKeyHere(t, prop, " false");
    }
  }

  lemma NoKeyConcat(a: string, b: string, rest: string, prop: string)
    requires NoKeyIn(a, b + rest, prop) && NoKeyIn(b, rest, prop)
    ensures NoKeyIn(a + b, rest, prop)
  {
    ConcatAssociative(a, b, rest);
    forall i | 0 <= i < |a + b| ensures !KeyHere(((a + b) + rest)[i..], prop) {
      if i >= |a| { assert (a + (b + rest))[i..] == (b + rest)[i - |a|..]; }
    }
  }

  /** Text in which no name starts. */
  predicate Nameless(w: string) {
    !Contains(w, "amp:") && (w == "" || w[|w| - 1] !in "amp")
  }

  lemma NoAmpAt(w: string, rest: string, i: nat)
    requires Nameless(w) && i < |w|
    ensures !StartsWith((w + rest)[i..], "amp:")
  {
    var t := (w + rest)[i..];
    if i + 4 <= |w| {
      assert !At(w, i, "amp:") && t[..4] == w[i..i + 4];
    } else {
      var k := |w| - 1 - i;
      assert t[k] == w[|w| - 1] && "amp:"[k] in "amp";
      assert |t| >= 4 ==> t[..4][k] == t[k];
    }
  }

  lemma NoAmpNoKey(t: string, prop: string)
    requires !StartsWith(t, "amp:")
    ensures !KeyHere(t, prop)
  {
    assert ("amp:" + prop)[..4] == "amp:";
    assert |t| >= |prop| + 4 ==> t[..|prop| + 4][..4] == t[..4];
  }

  lemma NoKeyInNameless(w: string, rest: string, prop: string)
    requires Nameless(w)
    ensures NoKeyIn(w, rest, prop)
  {
    forall i | 0 <= i < |w| ensures !KeyHere((w + rest)[i..], prop) {
      NoAmpAt(w, rest, i);
      NoAmpNoKey((w + rest)[i..], prop);
    }
  }

  lemma OtherKey(t: string, word: string, rest: string, prop: string)
    requires |t| >= 4 && t[4..] == word + rest && IsWord(word) && IsWord(prop) && rest != "" && rest[0] == ' '
    requires KeyHere(t, prop)
    ensures word == prop
  {
    WordRunIs(word, rest);
    var behind := t[|prop| + 4..];
    assert t[..|prop| + 4][4..] == ("amp:" + prop)[4..] == prop;
    assert t[4..] == prop + behind;
    WordRunIs(prop, behind);
    assert (word + rest)[..|word|] == word && (prop + behind)[..|prop|] == prop;
  }

  lemma NoAmpInWord(word: string, rest: string, i: nat)
    requires IsWord(word) && i < |word| && rest != "" && rest[0] == ' '
    ensures !StartsWith((word + rest)[i..], "amp:")
  {
    var t := (word + rest)[i..];
    var k := if |word| - i > 3 then 3 else |word| - i;
    assert t[k] == if k == 3 then (word + rest)[i + 3] else ' ';
    if |word| - i > 3 { assert t[3] == word[i + 3] && word[i + 3] in word; }
    assert |t| >= 4 ==> t[..4][k] == t[k];
  }

  /** The name of another property, or of a subject. */
  lemma NoKeyInName(word: string, rest: string, prop: string)
    requires IsWord(word) && IsWord(prop) && word != prop && rest != "" && rest[0] == ' '
    ensures NoKeyIn("amp:" + word, rest, prop)
  {
    var u := ("amp:" + word) + rest;
    assert u[4..] == word + rest;
    forall i | 0 <= i < |"amp:" + word| ensures !KeyHere(u[i..], prop) {
      if i == 0 {
        assert u[0..] == u;
        if KeyHere(u, prop) { OtherKey(u, word, rest, prop); }
      } else {
        if i < 4 {
          assert u[i..][0] == "amp:"[i] != 'a';
        } else {
          assert u[i..] == (word + rest)[i - 4..];
          NoAmpInWord(word, rest, i - 4);
        }
        NoAmpNoKey(u[i..], prop);
      }
    }
  }

  /** A printed literal, with the space before it. */
  function Quoted(v: string): string { " \"" + (T.Escape(v) + T.QUOTE) }

  /** Nothing in this property can be taken for that one. */
  predicate Passes(p: Property, prop: string) {
    && IsWord(p.prop) && p.prop != prop
    && match p
       case IsRef(_, name) => IsWord(name) && name != prop
       case IsText(_, v) => Nameless(Quoted(v))
       case IsFlag(_, _) => true
  }

  lemma NoKeyInPlain(prop: string, shown: string, rest: string, other: string)
    requires IsWord(prop) && prop != other && IsWord(other)
    requires shown != "" && shown[0] == ' ' && Nameless(shown)
    ensures NoKeyIn(("amp:" + prop) + shown, rest, other)
  {
    NoKeyInNameless(shown, rest, other);
    NoKeyInName(prop, shown + rest, other);
    NoKeyConcat("amp:" + prop, shown, rest, other);
  }

  lemma NoKeyInRef(prop: string, name: string, rest: string, other: string)
    requires IsWord(prop) && prop != other && IsWord(name) && name != other && IsWord(other)
    requires rest != "" && rest[0] == ' '
    ensures NoKeyIn(PrintRef(prop, name), rest, other)
  {
    assert " amp:" + name == " " + ("amp:" + name);
    NoKeyInName(name, rest, other);
    NoKeyInNameless(" ", ("amp:" + name) + rest, other);
    NoKeyConcat(" ", "amp:" + name, rest, other);
    NoKeyInName(prop, (" amp:" + name) + rest, other);
    NoKeyConcat("amp:" + prop, " amp:" + name, rest, other);
  }

  lemma NoPNameless(w: string)
    requires 'p' !in w && (w == "" || w[|w| - 1] !in "amp")
    ensures Nameless(w)
  {
    forall i | 0 <= i <= |w| ensures !At(w, i, "amp:") {
      if i + 4 <= |w| { assert w[i + 2] in w && w[i..i + 4][2] == w[i + 2] && "amp:"[2] == 'p'; }
    }
  }

  lemma NoKeyInProperty(p: Property, rest: string, other: string)
    requires Passes(p, other) && IsWord(other) && rest != "" && rest[0] == ' '
    ensures NoKeyIn(Print(p), rest, other)
  {
    match p
    case IsRef(prop, name) => NoKeyInRef(prop, name, rest, other);
    case IsText(prop, v) => NoKeyInPlain(prop, Quoted(v), rest, other);
    case IsFlag(prop, on) =>
      NoPNameless(if on then " true" else " false");
      NoKeyInPlain(prop, if on then " true" else " false", rest, other);
  }

  lemma {:induction false} NoKeyInBody(ps: seq<Property>, rest: string, other: string)
    requires IsWord(other) && forall p :: p in ps ==> Passes(p, other)
    ensures NoKeyIn(PrintBody(ps), rest, other)
  {
    if ps != [] {
      var more := PrintBody(ps[1..]);
      NoKeyInBody(ps[1..], rest, other);
      NoPNameless(SEPARATOR);
      NoKeyInNameless(SEPARATOR, more + rest, other);
      NoKeyConcat(SEPARATOR, more, rest, other);
      NoKeyInProperty(ps[0], (SEPARATOR + more) + rest, other);
      NoKeyConcat(Print(ps[0]), SEPARATOR + more, rest, other);
    }
  }

  lemma {:induction false} BodySplit(ps: seq<Property>, k: nat)
    requires k < |ps|
    ensures PrintBody(ps) == PrintBody(ps[..k]) + (Print(ps[k]) + (SEPARATOR + PrintBody(ps[k + 1..])))
  {
    if k > 0 {
      BodySplit(ps[1..], k - 1);
      assert ps[1..][..k - 1] == ps[..k][1..] && ps[1..][k..] == ps[k + 1..];
      var behind := Print(ps[k]) + (SEPARATOR + PrintBody(ps[k + 1..]));
      ConcatAssociative(SEPARATOR, PrintBody(ps[..k][1..]), behind);
      ConcatAssociative(Print(ps[0]), SEPARATOR + PrintBody(ps[..k][1..]), behind);
    }
  }

  ghost predicate Holds(body: string, p: Property) {
    match p
    case IsRef(prop, name) => HoldsRef(body, prop, name)
    case IsText(prop, v) => HoldsLiteral(body, prop, v)
    case IsFlag(prop, on) => HoldsFlag(body, prop, on)
  }

  lemma HoldsBehind(pre: string, p: Property, rest: string)
    requires NoKeyIn(pre, Print(p) + rest, p.prop) && rest != "" && rest[0] == ' '
    ensures Holds(pre + (Print(p) + rest), p)
  {
    NoKeyNoMatch(pre, Print(p) + rest, p.prop);
    if p.IsFlag? { assert PrintsFlag(pre + (Print(p) + rest), p.prop, p.on); }
  }

  /** A printed body holds each property that nothing before it can be taken for. */
  lemma BodyHolds(ps: seq<Property>, k: nat)
    requires k < |ps| && IsWord(ps[k].prop) && forall p :: p in ps[..k] ==> Passes(p, ps[k].prop)
    ensures Holds(PrintBody(ps), ps[k])
  {
    var pre, rest := PrintBody(ps[..k]), SEPARATOR + PrintBody(ps[k + 1..]);
    BodySplit(ps, k);
    NoKeyInBody(ps[..k], Print(ps[k]) + rest, ps[k].prop);
    HoldsBehind(pre, ps[k], rest);
  }

  // ---------------------------------------------------------------- from printed blocks to facts

  ghost predicate HoldsAttribute(body: string, owner: string, a: Attribute) {
    && IsWord(owner) && HoldsRef(body, "attributeOf", owner)
    && HoldsLiteral(body, "attributeName", a.name) && HoldsLiteral(body, "attributeType", a.ty)
    && HoldsFlag(body, "isPublic", a.public) && HoldsFlag(body, "isRequired", a.required)
    && HoldsFlag(body, "isSensitive", a.sensitive)
  }

  /** A printed attribute block is read as it was printed if and only if its name and type hold
      none of the characters the printer escapes. */
  lemma AttributeRead(b: Block, owner: string, a: Attribute)
    requires HoldsAttribute(b.body, owner, a)
    ensures ReadAttribute(b) == AttributeBlock(Some("amp:" + owner), Some(a.name), Some(a.ty), a.public, a.required,
                                               a.sensitive)
            <==> OL.Plain(a.name) && OL.Plain(a.ty)
  {
    RefRead(b.body, "attributeOf", owner);
    LiteralRead(b.body, "attributeName", a.name);
    LiteralRead(b.body, "attributeType", a.ty);
    FlagRead(b.body, "isPublic", a.public);
    FlagRead(b.body, "isRequired", a.required);
    FlagRead(b.body, "isSensitive", a.sensitive);
  }

  /** The properties of an attribute block, as they are printed. */
  function AttributeProperties(owner: string, a: Attribute): seq<Property> {
    [IsRef("attributeOf", owner), IsText("attributeName", a.name), IsText("attributeType", a.ty),
     IsFlag("isPublic", a.public), IsFlag("isRequired", a.required), IsFlag("isSensitive", a.sensitive)]
  }

  const ATTRIBUTE_NAMES: seq<string> :=
    ["attributeOf", "attributeName", "attributeType", "isPublic", "isRequired", "isSensitive"]

  lemma NamesAreWords(k: nat)
    requires k < |ATTRIBUTE_NAMES|
    ensures IsWord(ATTRIBUTE_NAMES[k])
  {
  }

  /** The owner is a subject and not called like a property, and no name starts in the literals. */
  predicate IsPrintable(owner: string, a: Attribute) {
    IsWord(owner) && owner !in ATTRIBUTE_NAMES && Nameless(Quoted(a.name)) && Nameless(Quoted(a.ty))
  }

  lemma PropertyPasses(owner: string, a: Attribute, j: nat, k: nat)
    requires IsPrintable(owner, a) && j < k < |ATTRIBUTE_NAMES|
    ensures Passes(AttributeProperties(owner, a)[j], ATTRIBUTE_NAMES[k])
  {
    NamesAreWords(j);
  }

  lemma PropertyHolds(owner: string, a: Attribute, k: nat)
    requires IsPrintable(owner, a) && k < |ATTRIBUTE_NAMES|
    ensures Holds(PrintBody(AttributeProperties(owner, a)), AttributeProperties(owner, a)[k])
  {
    var ps := AttributeProperties(owner, a);
    NamesAreWords(k);
    forall p | p in ps[..k] ensures Passes(p, ps[k].prop) {
      var j :| 0 <= j < k && ps[..k][j] == p;
      PropertyPasses(owner, a, j, k);
    }
    BodyHolds(ps, k);
  }

  lemma PrintedHoldsAttribute(owner: string, a: Attribute)
    requires IsPrintable(owner, a)
    ensures HoldsAttribute(PrintBody(AttributeProperties(owner, a)), owner, a)
  {
    var ps := AttributeProperties(owner, a);
    forall k | 0 <= k < |ps| ensures Holds(PrintBody(ps), ps[k]) { PropertyHolds(owner, a, k); }
    assert ps[0].IsRef? && ps[1].IsText? && ps[2].IsText? && ps[3].IsFlag? && ps[4].IsFlag? && ps[5].IsFlag?;
  }

  /** The whole block: an attribute printed property after property is read as it was printed if
      and only if its name and type hold none of the characters the printer escapes. */
  lemma AttributeRoundTrip(name: string, owner: string, a: Attribute)
    requires IsPrintable(owner, a)
    ensures ReadAttribute(Block(name, PrintBody(AttributeProperties(owner, a))))
            == AttributeBlock(Some("amp:" + owner), Some(a.name), Some(a.ty), a.public, a.required, a.sensitive)
            <==> OL.Plain(a.name) && OL.Plain(a.ty)
  {
    PrintedHoldsAttribute(owner, a);
    AttributeRead(Block(name, PrintBody(AttributeProperties(owner, a))), owner, a);
  }

  /** The same for an enum support block and its list of values. */
  lemma SupportRead(b: Block, s: Support)
    requires HoldsLiteral(b.body, "supportModuleName", s.mod) && HoldsLiteral(b.body, "supportKind", s.kind)
    requires HoldsList(b.body, "enumValue", s.values)
    ensures ReadSupport(b) == SupportBlock(Some(s.mod), Some(s.kind), s.values)
            <==> OL.Plain(s.mod) && OL.Plain(s.kind) && forall v :: v in s.values ==> OL.Plain(v)
  {
    LiteralRead(b.body, "supportModuleName", s.mod);
    LiteralRead(b.body, "supportKind", s.kind);
    ListRead(b.body, "enumValue", s.values);
  }

  /** And for a resource block with default actions. */
  lemma ResourceRead(b: Block, mod: string, actions: seq<string>)
    requires HoldsLiteral(b.body, "resourceModule", mod) && HoldsList(b.body, "defaultAction", actions)
    ensures ReadResource(b) == ResourceBlock("amp:" + b.name, Some(mod), actions)
            <==> OL.Plain(mod) && forall v :: v in actions ==> OL.Plain(v)
  {
    LiteralRead(b.body, "resourceModule", mod);
    ListRead(b.body, "defaultAction", actions);
  }

  /** A relationship block: its kind and name are read as they were printed if and only if they are
      plain, its owner, target and flags always are. */
  lemma RelationshipRead(b: Block, owner: string, kind: string, name: string, target: string, public: bool,
                         required: bool)
    requires IsWord(owner) && HoldsRef(b.body, "relationshipOf", owner)
    requires IsWord(target) && HoldsRef(b.body, "relationshipTarget", target)
    requires HoldsLiteral(b.body, "relationshipKind", kind) && HoldsLiteral(b.body, "relationshipName", name)
    requires HoldsFlag(b.body, "relationshipPublic", public) && HoldsFlag(b.body, "relationshipRequired", required)
    ensures ReadRelationship(b) == RelationshipBlock(Some("amp:" + owner), Some(kind), Some(name),
                                                     Some("amp:" + target), public, required)
            <==> OL.Plain(kind) && OL.Plain(name)
  {
    RefRead(b.body, "relationshipOf", owner);
    RefRead(b.body, "relationshipTarget", target);
    LiteralRead(b.body, "relationshipKind", kind);
    LiteralRead(b.body, "relationshipName", name);
    FlagRead(b.body, "relationshipPublic", public);
    FlagRead(b.body, "relationshipRequired", required);
  }

  lemma ExtensionRead(b: Block, owner: string, name: string)
    requires IsWord(owner) && HoldsRef(b.body, "extensionOf", owner) && HoldsLiteral(b.body, "extensionName", name)
    ensures ReadExtension(b) == ExtensionBlock(Some("amp:" + owner), Some(name)) <==> OL.Plain(name)
  {
    RefRead(b.body, "extensionOf", owner);
    LiteralRead(b.body, "extensionName", name);
  }

  /** A capability block is admitted exactly as it was printed. */
  lemma CapabilityRead(b: Block, task: string, admitted: bool)
    requires HoldsLiteral(b.body, "mixTask", task) && HoldsFlag(b.body, "admitted", admitted)
    ensures ReadCapability(b).admitted == admitted
    ensures ReadCapability(b).task == Some(task) <==> OL.Plain(task)
  {
    LiteralRead(b.body, "mixTask", task);
    FlagRead(b.body, "admitted", admitted);
  }

  /** Row by row, the graph of a text reads the blocks of the class each list is named after. */
  lemma RowsOfClasses(text: string, g: Graph, i: nat)
    requires g == ReadRows(text)
    ensures |g.domains| == |Cut(text, "Domain")| && |g.resources| == |Cut(text, "Resource")|
    ensures |g.attributes| == |Cut(text, "Attribute")| && |g.relationships| == |Cut(text, "Relationship")|
    ensures |g.extensions| == |Cut(text, "Extension")| && |g.supports| == |Cut(text, "SupportModule")|
    ensures |g.capabilities| == |Cut(text, "GeneratorCapability")|
    ensures i < |g.domains| ==> g.domains[i] == Literal(Cut(text, "Domain")[i].body, "domainModule")
    ensures i < |g.resources| ==> g.resources[i] == ReadResource(Cut(text, "Resource")[i])
    ensures i < |g.attributes| ==> g.attributes[i] == ReadAttribute(Cut(text, "Attribute")[i])
    ensures i < |g.relationships| ==> g.relationships[i] == ReadRelationship(Cut(text, "Relationship")[i])
    ensures i < |g.extensions| ==> g.extensions[i] == ReadExtension(Cut(text, "Extension")[i])
    ensures i < |g.supports| ==> g.supports[i] == ReadSupport(Cut(text, "SupportModule")[i])
    ensures i < |g.capabilities| ==> g.capabilities[i] == ReadCapability(Cut(text, "GeneratorCapability")[i])
  {
  }

  /** A domain block is a domain of the facts under the name that it prints. */
  lemma DomainRead(text: string, o: Facts, b: Block, mod: string)
    requires IsProjection(ReadRows(text), o) && b in Cut(text, "Domain")
    requires HoldsLiteral(b.body, "domainModule", mod) && OL.Plain(mod)
    ensures mod in o.domains
  {
    var i :| 0 <= i < |Cut(text, "Domain")| && Cut(text, "Domain")[i] == b;
    RowsOfClasses(text, ReadRows(text), i);
    LiteralRead(b.body, "domainModule", mod);
    assert o.domains[i] == mod;
  }

  /** An attribute whose fields neither the printer escapes nor the flag divides. */
  predicate Clean(a: Attribute) {
    OL.Plain(a.name) && OL.Plain(a.ty) && ':' !in a.name && ':' !in a.ty
  }

  /** One of the blocks is this clean attribute of this owner, as it is printed. */
  ghost predicate Prints(blocks: seq<Block>, owner: string, a: Attribute) {
    Clean(a) && exists b :: b in blocks && HoldsAttribute(b.body, owner, a)
  }

  ghost predicate AllPrinted(blocks: seq<Block>) {
    forall b :: b in blocks ==> exists w, x :: HoldsAttribute(b.body, w, x) && Clean(x)
  }

  ghost predicate AreRows(blocks: seq<Block>, rows: seq<AttributeBlock>) {
    |rows| == |blocks| && forall i :: 0 <= i < |rows| ==> rows[i] == ReadAttribute(blocks[i])
  }

  lemma AttributeRows(text: string, g: Graph)
    requires IsGraphOf(text, g)
    ensures AreRows(Cut(text, "Attribute"), g.attributes)
  {
    assert g.attributes == g.(parseFailures := []).attributes == ReadRows(text).attributes;
  }

  lemma CleanRead(b: Block, owner: string, a: Attribute)
    requires HoldsAttribute(b.body, owner, a) && Clean(a)
    ensures AttributeOf(ReadAttribute(b)) == a && ReadAttribute(b).owner == Some("amp:" + owner)
  {
    AttributeRead(b, owner, a);
  }

  lemma RowIsPrinted(blocks: seq<Block>, rows: seq<AttributeBlock>, row: AttributeBlock) returns (owner: string)
    requires AreRows(blocks, rows) && AllPrinted(blocks) && row in rows
    ensures row.owner == Some("amp:" + owner) && Prints(blocks, owner, AttributeOf(row)) && Clean(AttributeOf(row))
  {
    var i :| 0 <= i < |rows| && rows[i] == row;
    assert blocks[i] in blocks;
    var w, x :| HoldsAttribute(blocks[i].body, w, x) && Clean(x);
    CleanRead(blocks[i], w, x);
    owner := w;
  }

  lemma PrintedIsRow(blocks: seq<Block>, rows: seq<AttributeBlock>, owner: string, a: Attribute)
    returns (row: AttributeBlock)
    requires AreRows(blocks, rows) && Prints(blocks, owner, a)
    ensures row in rows && row.owner == Some("amp:" + owner) && AttributeOf(row) == a
  {
    var b :| b in blocks && HoldsAttribute(b.body, owner, a);
    var i :| 0 <= i < |blocks| && blocks[i] == b;
    CleanRead(b, owner, a);
    row := rows[i];
  }

  /** From the text of the ontology to the argv and back: under silence, when every attribute block
      is a printed clean attribute, decoding the `--attribute` values of a resource's step gives
      exactly the attributes the text declares of the resource. */
  lemma TextReadsBack(text: string, g: Graph, o: Facts, steps: seq<Step>, r: string, a: Attribute)
    requires IsGraphOf(text, g) && IsProjection(g, o) && NoDrift(o, steps) && AllPrinted(Cut(text, "Attribute"))
    ensures (exists v :: v in ValuesAfter(ResourceArgv(steps, r), "--attribute") && DecodeAttribute(v) == Some(a))
            <==> exists owner ::
                   Prints(Cut(text, "Attribute"), owner, a) && ModuleOf(g.resources, Some("amp:" + owner)) == r
  {
    AttributeRows(text, g);
    DeclaredReadsBack(Cut(text, "Attribute"), g, o, steps, r, a);
  }

  lemma DeclaredReadsBack(blocks: seq<Block>, g: Graph, o: Facts, steps: seq<Step>, r: string, a: Attribute)
    requires AreRows(blocks, g.attributes) && AllPrinted(blocks) && IsProjection(g, o) && NoDrift(o, steps)
    ensures (exists v :: v in ValuesAfter(ResourceArgv(steps, r), "--attribute") && DecodeAttribute(v) == Some(a))
            <==> exists owner :: Prints(blocks, owner, a) && ModuleOf(g.resources, Some("amp:" + owner)) == r
  {
    forall row | row in g.attributes ensures ':' !in AttributeOf(row).name && ':' !in AttributeOf(row).ty {
      var owner := RowIsPrinted(blocks, g.attributes, row);
    }
    AttributesReadBack(g, o, steps, r, a);
    DeclaredIffRow(blocks, g, r, a);
  }

  lemma RowIsDeclared(blocks: seq<Block>, g: Graph, r: string, row: AttributeBlock)
    requires AreRows(blocks, g.attributes) && AllPrinted(blocks)
    requires row in g.attributes && ModuleOf(g.resources, row.owner) == r
    ensures exists owner ::
              Prints(blocks, owner, AttributeOf(row)) && ModuleOf(g.resources, Some("amp:" + owner)) == r
  {
    var owner := RowIsPrinted(blocks, g.attributes, row);
  }

  lemma DeclaredIsRow(blocks: seq<Block>, g: Graph, r: string, owner: string, a: Attribute)
    requires AreRows(blocks, g.attributes)
    requires Prints(blocks, owner, a) && ModuleOf(g.resources, Some("amp:" + owner)) == r
    ensures exists b :: b in g.attributes && ModuleOf(g.resources, b.owner) == r && AttributeOf(b) == a
  {
    var row := PrintedIsRow(blocks, g.attributes, owner, a);
  }

  lemma DeclaredIffRow(blocks: seq<Block>, g: Graph, r: string, a: Attribute)
    requires AreRows(blocks, g.attributes) && AllPrinted(blocks)
    ensures (exists b :: b in g.attributes && ModuleOf(g.resources, b.owner) == r && AttributeOf(b) == a)
            <==> exists owner :: Prints(blocks, owner, a) && ModuleOf(g.resources, Some("amp:" + owner)) == r
  {
    if row :| row in g.attributes && ModuleOf(g.resources, row.owner) == r && AttributeOf(row) == a {
      RowIsDeclared(blocks, g, r, row);
    }
    if owner :| Prints(blocks, owner, a) && ModuleOf(g.resources, Some("amp:" + owner)) == r {
      DeclaredIsRow(blocks, g, r, owner, a);
    }
  }

  // ---------------------------------------------------------------- admission, from the text on

  /** The block says of this task, in so many words, whether it is admitted. */
  ghost predicate PrintsCapability(b: Block, task: string, admitted: bool) {
    OL.Plain(task) && HoldsLiteral(b.body, "mixTask", task) && HoldsFlag(b.body, "admitted", admitted)
  }

  ghost predicate AllCapabilitiesPrinted(blocks: seq<Block>) {
    forall b :: b in blocks ==> exists task, admitted :: PrintsCapability(b, task, admitted)
  }

  /** The last block that prints this task prints this admission. */
  ghost predicate LastSays(blocks: seq<Block>, task: string, admitted: bool) {
    exists i :: 0 <= i < |blocks| && PrintsCapability(blocks[i], task, admitted) &&
                forall j, a :: i < j < |blocks| ==> !PrintsCapability(blocks[j], task, a)
  }

  ghost predicate AreCapabilities(blocks: seq<Block>, rows: seq<CapabilityBlock>) {
    |rows| == |blocks| && forall i :: 0 <= i < |rows| ==> rows[i] == ReadCapability(blocks[i])
  }

  lemma CapabilityRows(text: string, g: Graph)
    requires IsGraphOf(text, g)
    ensures AreCapabilities(Cut(text, "GeneratorCapability"), g.capabilities)
  {
    assert g.capabilities == g.(parseFailures := []).capabilities == ReadRows(text).capabilities;
  }

  lemma PrintedTask(b: Block, task: string, admitted: bool)
    requires PrintsCapability(b, task, admitted)
    ensures ReadCapability(b) == CapabilityBlock(Some(task), admitted)
  {
    CapabilityRead(b, task, admitted);
  }

  lemma LastPrints(blocks: seq<Block>, rows: seq<CapabilityBlock>, i: int, task: string)
    requires AreCapabilities(blocks, rows) && AllCapabilitiesPrinted(blocks) && LastNames(rows, i, task)
    ensures PrintsCapability(blocks[i], task, rows[i].admitted)
    ensures forall j, a :: i < j < |blocks| ==> !PrintsCapability(blocks[j], task, a)
  {
    assert blocks[i] in blocks;
    var t, a :| PrintsCapability(blocks[i], t, a);
    PrintedTask(blocks[i], t, a);
    forall j, x | i < j < |blocks| ensures !PrintsCapability(blocks[j], task, x) {
      if PrintsCapability(blocks[j], task, x) { PrintedTask(blocks[j], task, x); }
    }
  }

  lemma AdmittedAsPrinted(blocks: seq<Block>, rows: seq<CapabilityBlock>, task: string, admitted: bool)
    requires AreCapabilities(blocks, rows) && AllCapabilitiesPrinted(blocks)
    requires Admitted(rows, task) == Some(admitted)
    ensures LastSays(blocks, task, admitted)
  {
    AdmittedMeaning(rows, task, admitted);
    var i :| LastNames(rows, i, task) && rows[i].admitted == admitted;
    LastPrints(blocks, rows, i, task);
  }

  /** From the text on: under silence the last capability block of every composed task prints it as
      admitted. */
  lemma ComposedIsAdmitted(text: string, g: Graph, o: Facts, steps: seq<Step>, s: Step)
    requires IsGraphOf(text, g) && IsProjection(g, o) && NoDrift(o, steps) && s in steps
    requires AllCapabilitiesPrinted(Cut(text, "GeneratorCapability"))
    ensures LastSays(Cut(text, "GeneratorCapability"), s.task, true)
  {
    SilentRest(o, steps);
    CapabilityRows(text, g);
    assert Allowed(o, s.task) && Admitted(g.capabilities, s.task) == Some(true);
    AdmittedAsPrinted(Cut(text, "GeneratorCapability"), g.capabilities, s.task, true);
  }

  // ---------------------------------------------------------------- the other blocks, up to the argv

  lemma RowOf(text: string, cls: string, b: Block) returns (i: nat)
    requires b in Cut(text, cls)
    ensures i < |Cut(text, cls)| && Cut(text, cls)[i] == b
  {
    i :| 0 <= i < |Cut(text, cls)| && Cut(text, cls)[i] == b;
  }

  /** A relationship block with plain kind and name. */
  ghost predicate PrintsRelationship(b: Block, owner: string, r: Relationship, target: string) {
    && IsWord(owner) && HoldsRef(b.body, "relationshipOf", owner)
    && IsWord(target) && HoldsRef(b.body, "relationshipTarget", target)
    && OL.Plain(r.kind) && HoldsLiteral(b.body, "relationshipKind", r.kind)
    && OL.Plain(r.name) && HoldsLiteral(b.body, "relationshipName", r.name)
    && HoldsFlag(b.body, "relationshipPublic", r.public) && HoldsFlag(b.body, "relationshipRequired", r.required)
  }

  /** The flag of a printed relationship, letter by letter. */
  function PrintedFlag(r: Relationship, mod: string): string {
    r.kind + ":" + r.name + ":" + mod + (if r.public then ":public" else "")
    + (if r.required && r.kind == "belongs_to" then ":required" else "")
  }

  lemma RelationshipRow(text: string, g: Graph, o: Facts, b: Block, owner: string, r: Relationship, target: string)
    requires IsGraphOf(text, g) && IsProjection(g, o) && b in Cut(text, "Relationship")
    requires PrintsRelationship(b, owner, r, target)
    ensures Fact(ModuleOf(g.resources, Some("amp:" + owner)),
                 PrintedFlag(r, ModuleOf(g.resources, Some("amp:" + target)))) in o.relationships
  {
    var i := RowOf(text, "Relationship", b);
    RowsOfClasses(text, g.(parseFailures := []), i);
    RelationshipRead(b, owner, r.kind, r.name, target, r.public, r.required);
    assert g.relationships[i] == ReadRelationship(b);
    BlockFacts(g.resources, Some("amp:" + owner), Some("amp:" + target), r.kind, r.name, r.public, r.required, false,
               []);
    assert o.relationships[i] == RelationshipFact(g.resources, g.relationships[i]);
  }

  /** From the text on: under silence the step of the owner passes the flag of every printed
      relationship. */
  lemma RelationshipReachesArgv(text: string, g: Graph, o: Facts, steps: seq<Step>, b: Block, owner: string,
                                r: Relationship, target: string)
    requires IsGraphOf(text, g) && IsProjection(g, o) && NoDrift(o, steps) && b in Cut(text, "Relationship")
    requires PrintsRelationship(b, owner, r, target)
    ensures PrintedFlag(r, ModuleOf(g.resources, Some("amp:" + target)))
            in ValuesAfter(ResourceArgv(steps, ModuleOf(g.resources, Some("amp:" + owner))), "--relationship")
  {
    RelationshipRow(text, g, o, b, owner, r, target);
    SilentRelationships(o, steps);
  }

  /** The same for the extensions with a nonempty name. */
  lemma ExtensionReachesArgv(text: string, g: Graph, o: Facts, steps: seq<Step>, b: Block, owner: string, name: string)
    requires IsGraphOf(text, g) && IsProjection(g, o) && NoDrift(o, steps) && b in Cut(text, "Extension")
    requires IsWord(owner) && HoldsRef(b.body, "extensionOf", owner)
    requires OL.Plain(name) && name != "" && HoldsLiteral(b.body, "extensionName", name)
    ensures name in SplitEach(ExtendGroups(steps, ModuleOf(g.resources, Some("amp:" + owner))), ',')
  {
    var i := RowOf(text, "Extension", b);
    RowsOfClasses(text, g.(parseFailures := []), i);
    ExtensionRead(b, owner, name);
    assert g.extensions[i] == ReadExtension(b);
    assert o.extensions[i] == Fact(ModuleOf(g.resources, Some("amp:" + owner)), name);
    SilentExtensions(o, steps);
  }

  /** And a support module is manufactured exactly when its generator is admitted. */
  lemma SupportReachesArgv(text: string, g: Graph, o: Facts, steps: seq<Step>, b: Block, s: Support)
    requires IsGraphOf(text, g) && IsProjection(g, o) && NoDrift(o, steps) && b in Cut(text, "SupportModule")
    requires HoldsLiteral(b.body, "supportModuleName", s.mod) && OL.Plain(s.mod)
    requires HoldsLiteral(b.body, "supportKind", s.kind) && OL.Plain(s.kind)
    ensures Allowed(o, "ash.gen." + s.kind) <==> Invoked(steps, "ash.gen." + s.kind, s.mod)
  {
    var i := RowOf(text, "SupportModule", b);
    RowsOfClasses(text, g.(parseFailures := []), i);
    LiteralRead(b.body, "supportModuleName", s.mod);
    LiteralRead(b.body, "supportKind", s.kind);
    assert g.supports[i] == ReadSupport(b);
    assert o.supports[i] == Support(s.mod, s.kind, g.supports[i].values);
    SilentSupports(o, steps);
  }
}
