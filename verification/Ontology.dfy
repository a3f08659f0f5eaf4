/** The ontology as the drift check reads it: the blocks of the Turtle file, the facts derived
    from them, and the colon-joined flags that stand for attributes and relationships. */
module Ontology {
  import opened Text

  const UNRESOLVED := "<UNRESOLVED>"

  /** One `amp:X a amp:Class ; ... .` block per class, holding what the single-valued and
      list-valued readers return for it; `None` is a property that is not there. */
  datatype ResourceBlock = ResourceBlock(subject: string, mod: Option<string>, actions: seq<string>)
  datatype AttributeBlock = AttributeBlock(owner: Option<string>, name: Option<string>, ty: Option<string>,
                                           public: bool, required: bool, sensitive: bool)
  datatype RelationshipBlock = RelationshipBlock(owner: Option<string>, kind: Option<string>,
                                                 name: Option<string>, target: Option<string>,
                                                 public: bool, required: bool)
  datatype ExtensionBlock = ExtensionBlock(owner: Option<string>, name: Option<string>)
  datatype SupportBlock = SupportBlock(mod: Option<string>, kind: Option<string>, values: seq<string>)
  datatype CapabilityBlock = CapabilityBlock(task: Option<string>, admitted: bool)

  datatype Graph = Graph(domains: seq<Option<string>>, resources: seq<ResourceBlock>,
                         attributes: seq<AttributeBlock>, relationships: seq<RelationshipBlock>,
                         extensions: seq<ExtensionBlock>, supports: seq<SupportBlock>,
                         capabilities: seq<CapabilityBlock>, parseFailures: seq<string>)

  /** A value that the ontology states of a resource: a flag, an extension name or an action. */
  datatype Fact = Fact(resource: string, value: string)
  datatype Support = Support(mod: string, kind: string, values: seq<string>)

  datatype Facts = Facts(domains: seq<string>, resources: seq<string>, attributes: seq<Fact>,
                         relationships: seq<Fact>, extensions: seq<Fact>, supports: seq<Support>,
                         actions: seq<Fact>, capabilities: map<string, bool>, parseFailures: seq<string>)

  /** A literal, or a visible sentinel when the property is missing. */
  function One(v: Option<string>, prop: string): string {
    Or(v, Missing(prop))
  }

  // ---------------------------------------------------------------- flags

  datatype Attribute = Attribute(name: string, ty: string, public: bool, required: bool, sensitive: bool)
  datatype Relationship = Relationship(kind: string, name: string, target: string, public: bool, required: bool)

  function Modifier(on: bool, word: string): seq<string> {
    if on then [word] else []
  }

  function AttributeFlag(a: Attribute): string {
    Join(":", [a.name, a.ty] + Modifier(a.public, "public") + Modifier(a.required, "required")
              + Modifier(a.sensitive, "sensitive"))
  }

  function RelationshipFlag(r: Relationship): string {
    Join(":", [r.kind, r.name, r.target] + Modifier(r.public, "public")
              + Modifier(r.kind == "belongs_to" && r.required, "required"))
  }

  lemma ModifierTail(on: bool, word: string, text: string)
    requires text == ":" + word
    ensures Tail(":", Modifier(on, word)) == if on then text else ""
  {
    if on {
      assert [word][1..] == [];
      assert ":" + word + "" == ":" + word;
    }
  }

  lemma TwoParts(a: string, b: string, mods: seq<string>)
    ensures Join(":", [a, b] + mods) == a + ":" + b + Tail(":", mods)
  {
    var parts := [a, b] + mods;
    JoinTail(":", parts);
    assert parts[1..] == [b] + mods && ([b] + mods)[1..] == mods;
    ConcatAssociative(a, ":" + b, Tail(":", mods));
    ConcatAssociative(a, ":", b);
  }

  lemma ModifierTails(p: bool, r: bool, s: bool)
    ensures Tail(":", Modifier(p, "public")) == if p then ":public" else ""
    ensures Tail(":", Modifier(r, "required")) == if r then ":required" else ""
    ensures Tail(":", Modifier(s, "sensitive")) == if s then ":sensitive" else ""
  {
    ModifierTail(p, "public", ":public");
    ModifierTail(r, "required", ":required");
    ModifierTail(s, "sensitive", ":sensitive");
  }

  lemma AttributeFlagText(a: Attribute)
    ensures AttributeFlag(a) == a.name + ":" + a.ty + (if a.public then ":public" else "")
                                + (if a.required then ":required" else "") + (if a.sensitive then ":sensitive" else "")
  {
    var p, r, s := Modifier(a.public, "public"), Modifier(a.required, "required"), Modifier(a.sensitive, "sensitive");
    assert [a.name, a.ty] + p + r + s == [a.name, a.ty] + (p + (r + s));
    TwoParts(a.name, a.ty, p + (r + s));
    ModifierTails(a.public, a.required, a.sensitive);
    TailConcat(":", p, r + s);
    TailConcat(":", r, s);
    Regroup(a.name + ":" + a.ty, if a.public then ":public" else "", if a.required then ":required" else "",
            if a.sensitive then ":sensitive" else "");
  }

  lemma Regroup(a: string, b: string, c: string, d: string)
    ensures a + (b + (c + d)) == a + b + c + d
  {
  }

  lemma RelationshipFlagText(x: Relationship)
    ensures RelationshipFlag(x) == x.kind + ":" + x.name + ":" + x.target + (if x.public then ":public" else "")
                                   + (if x.required && x.kind == "belongs_to" then ":required" else "")
  {
    var p, r := Modifier(x.public, "public"), Modifier(x.kind == "belongs_to" && x.required, "required");
    assert [x.kind, x.name, x.target] + p + r == [x.kind, x.name] + ([x.target] + p + r);
    TwoParts(x.kind, x.name, [x.target] + p + r);
    TailConcat(":", [x.target] + p, r);
    TailConcat(":", [x.target], p);
    assert Tail(":", [x.target]) == ":" + x.target by { assert [x.target][1..] == []; }
    ModifierTails(x.public, x.kind == "belongs_to" && x.required, false);
    var head := x.kind + ":" + x.name;
    ConcatAssociative(head, ":" + x.target + Tail(":", p), Tail(":", r));
    ConcatAssociative(head, ":" + x.target, Tail(":", p));
    ConcatAssociative(head, ":", x.target);
  }

  /** The text of a flag: its parts, a colon between each two, its modifiers in this order. */
  lemma FlagText(a: Attribute, r: Relationship)
    ensures AttributeFlag(a) == a.name + ":" + a.ty + (if a.public then ":public" else "")
                                + (if a.required then ":required" else "") + (if a.sensitive then ":sensitive" else "")
    ensures RelationshipFlag(r) == r.kind + ":" + r.name + ":" + r.target + (if r.public then ":public" else "")
                                   + (if r.required && r.kind == "belongs_to" then ":required" else "")
  {
    AttributeFlagText(a);
    RelationshipFlagText(r);
  }

  /** Reading a flag back: the parts between its colons. */
  function DecodeAttribute(flag: string): Option<Attribute> {
    var parts := Split(flag, ':');
    if |parts| < 2 then None
    else Some(Attribute(parts[0], parts[1], "public" in parts[2..], "required" in parts[2..],
                        "sensitive" in parts[2..]))
  }

  function DecodeRelationship(flag: string): Option<Relationship> {
    var parts := Split(flag, ':');
    if |parts| < 3 then None
    else Some(Relationship(parts[0], parts[1], parts[2], "public" in parts[3..], "required" in parts[3..]))
  }

  /** An attribute's flag determines the attribute exactly when neither its name nor its type
      holds a colon. */
  lemma AttributeFlagFaithful(a: Attribute)
    ensures DecodeAttribute(AttributeFlag(a)) == Some(a) <==> ':' !in a.name && ':' !in a.ty
  {
    var mods := Modifier(a.public, "public") + Modifier(a.required, "required") + Modifier(a.sensitive, "sensitive");
    var parts := [a.name, a.ty] + mods;
    assert parts == [a.name, a.ty] + Modifier(a.public, "public") + Modifier(a.required, "required")
                    + Modifier(a.sensitive, "sensitive");
    if ':' !in a.name && ':' !in a.ty {
      SplitOfJoin(parts, ':');
      assert parts[2..] == mods;
    }
    JoinOfSplit(AttributeFlag(a), ':');
  }

  /** A relationship's flag determines the relationship exactly when its three fields are
      colon-free and it is not a required relationship of a kind other than `belongs_to`, for
      which the flag leaves `required` out. */
  lemma RelationshipFlagFaithful(r: Relationship)
    ensures DecodeRelationship(RelationshipFlag(r)) == Some(r)
            <==> ':' !in r.kind && ':' !in r.name && ':' !in r.target && (r.required ==> r.kind == "belongs_to")
  {
    var mods := Modifier(r.public, "public") + Modifier(r.kind == "belongs_to" && r.required, "required");
    var parts := [r.kind, r.name, r.target] + mods;
    assert parts == [r.kind, r.name, r.target] + Modifier(r.public, "public")
                    + Modifier(r.kind == "belongs_to" && r.required, "required");
    if ':' !in r.kind && ':' !in r.name && ':' !in r.target {
      SplitOfJoin(parts, ':');
      assert parts[3..] == mods;
    }
    JoinOfSplit(RelationshipFlag(r), ':');
  }

  /** Two different attributes, one of them with a colon in its type, can carry the same flag. */
  lemma AttributeFlagCollision()
    ensures var plain := Attribute("isbn", "string", true, false, false);
            var colon := Attribute("isbn", "string:public", false, false, false);
            plain != colon && AttributeFlag(plain) == AttributeFlag(colon)
  {
    var plain := Attribute("isbn", "string", true, false, false);
    var colon := Attribute("isbn", "string:public", false, false, false);
    assert [plain.name, plain.ty] + ["public"] + [] + [] == ["isbn", "string", "public"];
    assert [colon.name, colon.ty] + [] + [] + [] == ["isbn", "string:public"];
    assert Join(":", ["isbn", "string", "public"]) == "isbn" + ":" + ("string" + ":" + "public") by {
      assert ["isbn", "string", "public"][1..] == ["string", "public"];
      assert ["string", "public"][1..] == ["public"];
    }
    assert ["isbn", "string:public"][1..] == ["string:public"];
  }

  // ---------------------------------------------------------------- derived facts

  /** The module name of the last resource block with this subject. */
  function ModuleOf(resources: seq<ResourceBlock>, subject: Option<string>): string {
    if resources == [] then UNRESOLVED
    else
      var last := resources[|resources| - 1];
      if subject == Some(last.subject) then One(last.mod, "resourceModule")
      else ModuleOf(resources[..|resources| - 1], subject)
  }

  /** What the last capability block for this mix task says. */
  function Admitted(capabilities: seq<CapabilityBlock>, task: string): Option<bool> {
    if capabilities == [] then None
    else
      var last := capabilities[|capabilities| - 1];
      if One(last.task, "mixTask") == task then Some(last.admitted)
      else Admitted(capabilities[..|capabilities| - 1], task)
  }

  /** The last capability block that names the task. */
  ghost predicate LastNames(capabilities: seq<CapabilityBlock>, i: int, task: string) {
    && 0 <= i < |capabilities| && One(capabilities[i].task, "mixTask") == task
    && forall j :: i < j < |capabilities| ==> One(capabilities[j].task, "mixTask") != task
  }

  lemma {:induction false} AdmittedMeaning(capabilities: seq<CapabilityBlock>, task: string, admitted: bool)
    ensures Admitted(capabilities, task) == Some(admitted) <==>
            exists i :: LastNames(capabilities, i, task) && capabilities[i].admitted == admitted
  {
    if capabilities != [] {
      var n := |capabilities| - 1;
      if One(capabilities[n].task, "mixTask") == task {
        assert LastNames(capabilities, n, task);
      } else {
        AdmittedMeaning(capabilities[..n], task, admitted);
        forall i ensures LastNames(capabilities[..n], i, task) <==> LastNames(capabilities, i, task) {
          if LastNames(capabilities, i, task) { assert capabilities[..n][i] == capabilities[i]; }
          if LastNames(capabilities[..n], i, task) {
            forall j | i < j < |capabilities| ensures One(capabilities[j].task, "mixTask") != task {
              if j < n { assert capabilities[..n][j] == capabilities[j]; }
            }
          }
        }
      }
    }
  }

  function AttributeOf(b: AttributeBlock): Attribute {
    Attribute(One(b.name, "attributeName"), One(b.ty, "attributeType"), b.public, b.required, b.sensitive)
  }

  function RelationshipOf(resources: seq<ResourceBlock>, b: RelationshipBlock): Relationship {
    Relationship(One(b.kind, "relationshipKind"), One(b.name, "relationshipName"),
                 ModuleOf(resources, b.target), b.public, b.required)
  }

  function SupportOf(b: SupportBlock): Support {
    Support(One(b.mod, "supportModuleName"), One(b.kind, "supportKind"), b.values)
  }

  function ActionFacts(mod: string, actions: seq<string>): seq<Fact> {
    seq(|actions|, i requires 0 <= i < |actions| => Fact(mod, actions[i]))
  }

  function AllActionFacts(resources: seq<ResourceBlock>): seq<Fact> {
    if resources == [] then []
    else
      var last := resources[|resources| - 1];
      AllActionFacts(resources[..|resources| - 1]) + ActionFacts(One(last.mod, "resourceModule"), last.actions)
  }

  function AttributeFact(resources: seq<ResourceBlock>, b: AttributeBlock): Fact {
    Fact(ModuleOf(resources, b.owner), AttributeFlag(AttributeOf(b)))
  }

  function RelationshipFact(resources: seq<ResourceBlock>, b: RelationshipBlock): Fact {
    Fact(ModuleOf(resources, b.owner), RelationshipFlag(RelationshipOf(resources, b)))
  }

  function ExtensionFact(resources: seq<ResourceBlock>, b: ExtensionBlock): Fact {
    Fact(ModuleOf(resources, b.owner), One(b.name, "extensionName"))
  }

  /** The facts of blocks that have all their properties. */
  lemma BlockFacts(resources: seq<ResourceBlock>, owner: Option<string>, target: Option<string>, x: string, y: string,
                   public: bool, required: bool, sensitive: bool, values: seq<string>)
    ensures AttributeFact(resources, AttributeBlock(owner, Some(x), Some(y), public, required, sensitive))
            == Fact(ModuleOf(resources, owner),
                    x + ":" + y + (if public then ":public" else "") + (if required then ":required" else "")
                    + (if sensitive then ":sensitive" else ""))
    ensures RelationshipFact(resources, RelationshipBlock(owner, Some(x), Some(y), target, public, required))
            == Fact(ModuleOf(resources, owner),
                    x + ":" + y + ":" + ModuleOf(resources, target) + (if public then ":public" else "")
                    + (if required && x == "belongs_to" then ":required" else ""))
    ensures ExtensionFact(resources, ExtensionBlock(owner, Some(x))) == Fact(ModuleOf(resources, owner), x)
    ensures SupportOf(SupportBlock(Some(x), Some(y), values)) == Support(x, y, values)
  {
    AttributeFlagText(Attribute(x, y, public, required, sensitive));
    RelationshipFlagText(Relationship(x, y, ModuleOf(resources, target), public, required));
  }

  /** A property that is not there shows, under its own name. */
  lemma MissingShows(resources: seq<ResourceBlock>, owner: Option<string>, values: seq<string>)
    ensures AttributeOf(AttributeBlock(owner, None, None, false, false, false))
            == Attribute(Missing("attributeName"), Missing("attributeType"), false, false, false)
    ensures var r := RelationshipOf(resources, RelationshipBlock(owner, None, None, None, false, false));
            r.kind == Missing("relationshipKind") && r.name == Missing("relationshipName") && r.target == UNRESOLVED
    ensures ExtensionFact(resources, ExtensionBlock(owner, None)).value == Missing("extensionName")
    ensures SupportOf(SupportBlock(None, None, values))
            == Support(Missing("supportModuleName"), Missing("supportKind"), values)
  {
    NoReferenceUnresolved(resources);
  }

  /** The domains and resources of a projection, with the sentinels of those that have no module. */
  lemma ModulesOfProjection(g: Graph, o: Facts, i: nat)
    requires IsProjection(g, o)
    ensures i < |o.domains| ==> o.domains[i] == Or(g.domains[i], Missing("domainModule"))
    ensures i < |o.resources| ==> o.resources[i] == Or(g.resources[i].mod, Missing("resourceModule"))
  {
  }

  lemma {:induction false} InActionFacts(resources: seq<ResourceBlock>, f: Fact)
    ensures f in AllActionFacts(resources) <==>
            exists b :: b in resources && One(b.mod, "resourceModule") == f.resource && f.value in b.actions
  {
    if resources != [] {
      var n := |resources| - 1;
      var last, rest := resources[n], resources[..n];
      InActionFacts(rest, f);
      assert resources == rest + [last];
      assert f in ActionFacts(One(last.mod, "resourceModule"), last.actions) <==>
             One(last.mod, "resourceModule") == f.resource && f.value in last.actions by {
        InOneBlock(One(last.mod, "resourceModule"), last.actions, f);
      }
      if b :| b in rest && One(b.mod, "resourceModule") == f.resource && f.value in b.actions {
        assert b in resources;
      }
      assert last in resources;
    }
  }

  lemma InOneBlock(mod: string, actions: seq<string>, f: Fact)
    ensures f in ActionFacts(mod, actions) <==> f.resource == mod && f.value in actions
  {
    if f.resource == mod && f.value in actions {
      var i :| 0 <= i < |actions| && actions[i] == f.value;
      assert ActionFacts(mod, actions)[i] == f;
    }
  }

  /** `o` holds the facts of graph `g`: one fact per block in block order, owners resolved to the
      module of the resource block they name, the capability map read last block first. */
  ghost predicate IsProjection(g: Graph, o: Facts) {
    && o.domains == seq(|g.domains|, i requires 0 <= i < |g.domains| => One(g.domains[i], "domainModule"))
    && o.resources == seq(|g.resources|, i requires 0 <= i < |g.resources| => One(g.resources[i].mod, "resourceModule"))
    && |o.attributes| == |g.attributes|
    && (forall i :: 0 <= i < |g.attributes| ==> o.attributes[i] == AttributeFact(g.resources, g.attributes[i]))
    && |o.relationships| == |g.relationships|
    && (forall i :: 0 <= i < |g.relationships| ==>
          o.relationships[i] == RelationshipFact(g.resources, g.relationships[i]))
    && |o.extensions| == |g.extensions|
    && (forall i :: 0 <= i < |g.extensions| ==> o.extensions[i] == ExtensionFact(g.resources, g.extensions[i]))
    && |o.supports| == |g.supports|
    && (forall i :: 0 <= i < |g.supports| ==> o.supports[i] == SupportOf(g.supports[i]))
    && o.actions == AllActionFacts(g.resources)
    && (forall t :: t in o.capabilities <==> Admitted(g.capabilities, t).Some?)
    && (forall t :: t in o.capabilities ==> Admitted(g.capabilities, t) == Some(o.capabilities[t]))
    && o.parseFailures == g.parseFailures
  }

  method ResourceModules(resources: seq<ResourceBlock>) returns (modules: map<string, string>)
    ensures forall s :: (if s in modules then modules[s] else UNRESOLVED) == ModuleOf(resources, Some(s))
  {
    modules := map[];
    for i := 0 to |resources|
      invariant forall s :: (if s in modules then modules[s] else UNRESOLVED) == ModuleOf(resources[..i], Some(s))
    {
      assert resources[..i + 1][..i] == resources[..i];
      modules := modules[resources[i].subject := One(resources[i].mod, "resourceModule")];
    }
    assert resources[..|resources|] == resources;
  }

  lemma NoReferenceUnresolved(resources: seq<ResourceBlock>)
    ensures ModuleOf(resources, None) == UNRESOLVED
  {
  }

  method Capabilities(blocks: seq<CapabilityBlock>) returns (caps: map<string, bool>)
    ensures forall t :: t in caps <==> Admitted(blocks, t).Some?
    ensures forall t :: t in caps ==> Admitted(blocks, t) == Some(caps[t])
  {
    caps := map[];
    for i := 0 to |blocks|
      invariant forall t :: t in caps <==> Admitted(blocks[..i], t).Some?
      invariant forall t :: t in caps ==> Admitted(blocks[..i], t) == Some(caps[t])
    {
      assert blocks[..i + 1][..i] == blocks[..i];
      caps := caps[One(blocks[i].task, "mixTask") := blocks[i].admitted];
    }
    assert blocks[..|blocks|] == blocks;
  }

  method DefaultActions(resources: seq<ResourceBlock>) returns (actions: seq<Fact>)
    ensures actions == AllActionFacts(resources)
  {
    actions := [];
    for i := 0 to |resources|
      invariant actions == AllActionFacts(resources[..i])
    {
      assert resources[..i + 1][..i] == resources[..i];
      var mod := One(resources[i].mod, "resourceModule");
      ghost var before, added := actions, ActionFacts(mod, resources[i].actions);
      for j := 0 to |resources[i].actions|
        invariant actions == before + added[..j]
      {
        assert added[..j + 1] == added[..j] + [Fact(mod, resources[i].actions[j])];
        actions := actions + [Fact(mod, resources[i].actions[j])];
      }
      assert added[..|resources[i].actions|] == added;
    }
    assert resources[..|resources|] == resources;
  }

  function Lookup(modules: map<string, string>, subject: Option<string>): string {
    if subject.Some? && subject.value in modules then modules[subject.value] else UNRESOLVED
  }

  method AttributeFacts(modules: map<string, string>, ghost resources: seq<ResourceBlock>, blocks: seq<AttributeBlock>)
    returns (facts: seq<Fact>)
    requires forall s :: Lookup(modules, s) == ModuleOf(resources, s)
    ensures |facts| == |blocks| && forall i :: 0 <= i < |blocks| ==> facts[i] == AttributeFact(resources, blocks[i])
  {
    facts := [];
    for i := 0 to |blocks|
      invariant |facts| == i && forall j :: 0 <= j < i ==> facts[j] == AttributeFact(resources, blocks[j])
    {
      facts := facts + [Fact(Lookup(modules, blocks[i].owner), AttributeFlag(AttributeOf(blocks[i])))];
    }
  }

  method RelationshipFacts(modules: map<string, string>, ghost resources: seq<ResourceBlock>,
                           blocks: seq<RelationshipBlock>)
    returns (facts: seq<Fact>)
    requires forall s :: Lookup(modules, s) == ModuleOf(resources, s)
    ensures |facts| == |blocks| && forall i :: 0 <= i < |blocks| ==> facts[i] == RelationshipFact(resources, blocks[i])
  {
    facts := [];
    for i := 0 to |blocks|
      invariant |facts| == i && forall j :: 0 <= j < i ==> facts[j] == RelationshipFact(resources, blocks[j])
    {
      var b := blocks[i];
      var r := Relationship(One(b.kind, "relationshipKind"), One(b.name, "relationshipName"),
                            Lookup(modules, b.target), b.public, b.required);
      assert r == RelationshipOf(resources, b);
      facts := facts + [Fact(Lookup(modules, b.owner), RelationshipFlag(r))];
    }
  }

  /** `parse_ontology`, from the blocks on. */
  method ParseOntology(g: Graph) returns (o: Facts)
    ensures IsProjection(g, o)
  {
    var modules := ResourceModules(g.resources);
    NoReferenceUnresolved(g.resources);
    assert forall s :: Lookup(modules, s) == ModuleOf(g.resources, s) by {
      forall s ensures Lookup(modules, s) == ModuleOf(g.resources, s) {
        if s.Some? { assert s == Some(s.value); }
      }
    }
    var attributes := AttributeFacts(modules, g.resources, g.attributes);
    var relationships := RelationshipFacts(modules, g.resources, g.relationships);
    var capabilities := Capabilities(g.capabilities);
    var actions := DefaultActions(g.resources);
    var supports := seq(|g.supports|, i requires 0 <= i < |g.supports| => SupportOf(g.supports[i]));
    var extensions := seq(|g.extensions|, i requires 0 <= i < |g.extensions| =>
      Fact(Lookup(modules, g.extensions[i].owner), One(g.extensions[i].name, "extensionName")));
    var domains := seq(|g.domains|, i requires 0 <= i < |g.domains| => One(g.domains[i], "domainModule"));
    var resources := seq(|g.resources|, i requires 0 <= i < |g.resources| => One(g.resources[i].mod, "resourceModule"));
    o := Facts(domains, resources, attributes, relationships, extensions, supports, actions, capabilities,
               g.parseFailures);
  }
}
