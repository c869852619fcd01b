/**
  Reduced provider schemas: typing one attribute path, and the type of a whole resource. The two
  views are used by inference for `r.p` and for `r`, so they have to agree.
 */
module ProviderSchema {
  import opened Basics
  import opened CtyTypes
  import opened Strings
  import Inference

  /** `t` is absent when the stored type cannot be decoded; a missing type decodes to `Dynamic`. */
  datatype Attribute = Attribute(t: Option<Type>, required: bool)
  datatype Block = Block(attributes: map<string, Attribute>, blocks: map<string, NestedBlock>)
  datatype NestedBlock = NestedBlock(nesting: string, minItems: int, maxItems: int, block: Block)
  datatype Schema = Schema(resources: map<string, Block>, dataSources: map<string, Block>)

  function SelectBlock(s: Schema, resourceType: string, isData: bool): Option<Block> {
    var table := if isData then s.dataSources else s.resources;
    if resourceType in table then Some(table[resourceType]) else None
  }

  function WrapNesting(mode: string, inner: Type): Type {
    if mode == "list" then List(inner)
    else if mode == "set" then Set(inner)
    else if mode == "map" then Map(inner)
    else inner
  }

  function AttributeType(a: Attribute): Type {
    if a.t.Some? then a.t.value else Dynamic
  }

  /** A nested block replaces an attribute of the same name. */
  function BlockObjectType(b: Block): Type {
    NewObject(map n | n in b.attributes.Keys + b.blocks.Keys ::
      if n in b.blocks then WrapNesting(b.blocks[n].nesting, BlockObjectType(b.blocks[n].block))
      else AttributeType(b.attributes[n]))
  }

  function WalkIntoType(t: Type, steps: seq<string>): Option<Type>
    decreases |steps|
  {
    if steps == [] then Some(t)
    else
      match t
      case Object(attrs, _) => if steps[0] in attrs then WalkIntoType(attrs[steps[0]], steps[1..]) else None
      case Map(e) => WalkIntoType(e, steps[1..])
      case _ => None
  }

  /** The type at a path into a block; an attribute is preferred to a nested block of the same name. */
  function LookupIn(b: Block, steps: seq<string>): Option<Type>
    requires steps != []
    decreases |steps|
  {
    if steps[0] in b.attributes then
      var t := b.attributes[steps[0]].t;
      if t.None? || |steps| == 1 then t else WalkIntoType(t.value, steps[1..])
    else if steps[0] !in b.blocks then None
    else
      var nested := b.blocks[steps[0]];
      if |steps| == 1 then Some(WrapNesting(nested.nesting, BlockObjectType(nested.block)))
      else LookupIn(nested.block, steps[1..])
  }

  function LookupType(s: Schema, resourceType: string, attrPath: string, isData: bool): Option<Type> {
    match SelectBlock(s, resourceType, isData)
    case None => None
    case Some(b) => LookupIn(b, Split(attrPath, '.'))
  }

  function ResourceAttributes(s: Schema, resourceType: string, isData: bool): Option<Type> {
    match SelectBlock(s, resourceType, isData)
    case None => None
    case Some(b) => Some(BlockObjectType(b))
  }

  method WalkSteps(t: Type, steps: seq<string>) returns (r: Option<Type>)
    ensures r == WalkIntoType(t, steps)
  {
    var at := t;
    for i := 0 to |steps|
      invariant WalkIntoType(at, steps[i..]) == WalkIntoType(t, steps)
    {
      assert steps[i..][1..] == steps[i + 1..];
      if at.Object? {
        if steps[i] !in at.attrs {
          return None;
        }
        at := at.attrs[steps[i]];
      } else if at.Map? {
        at := at.elem;
      } else {
        return None;
      }
    }
    return Some(at);
  }

  method Lookup(s: Schema, resourceType: string, attrPath: string, isData: bool) returns (r: Option<Type>)
    ensures r == LookupType(s, resourceType, attrPath, isData)
  {
    var block := SelectBlock(s, resourceType, isData);
    if block.None? {
      return None;
    }
    var steps := Split(attrPath, '.');
    var current := block.value;
    for i := 0 to |steps|
      invariant i < |steps| ==> LookupIn(current, steps[i..]) == LookupIn(block.value, steps)
      invariant i < |steps|  // every iteration but a returning one leaves a step to take
    {
      assert steps[i..][1..] == steps[i + 1..];
      if steps[i] in current.attributes {
        var t := current.attributes[steps[i]].t;
        if t.None? || i == |steps| - 1 {
          return t;
        }
        r := WalkSteps(t.value, steps[i + 1..]);
        return;
      }
      if steps[i] !in current.blocks {
        return None;
      }
      var nested := current.blocks[steps[i]];
      if i == |steps| - 1 {
        return Some(WrapNesting(nested.nesting, BlockObjectType(nested.block)));
      }
      current := nested.block;
    }
    return None;
  }

  // ------------------------------------------------------------------ the two views

  function OrDynamic(t: Option<Type>): Type {
    if t.Some? then t.value else Dynamic
  }

  lemma {:induction false} WalkIsApplyPath(t: Type, steps: seq<string>)
    ensures OrDynamic(WalkIntoType(t, steps)) == Inference.ApplyPath(t, steps)
    decreases |steps|
  {
    if steps != [] {
      match t
      case Object(attrs, _) => if steps[0] in attrs { WalkIsApplyPath(attrs[steps[0]], steps[1..]); }
      case Map(e) => WalkIsApplyPath(e, steps[1..]);
      case _ =>
    }
  }

  predicate WrapsCollection(nesting: string) {
    nesting in {"list", "set", "map"}
  }

  /** No name on the path is both attribute and block, and no list, set or map block is stepped through. */
  predicate Transparent(b: Block, path: seq<string>)
    decreases |path|
  {
    path == [] ||
    if path[0] in b.attributes then path[0] !in b.blocks
    else path[0] in b.blocks && |path| > 1 ==>
      !WrapsCollection(b.blocks[path[0]].nesting) && Transparent(b.blocks[path[0]].block, path[1..])
  }

  lemma {:induction false} LookupIsObjectPath(b: Block, path: seq<string>)
    requires path != [] && Transparent(b, path)
    ensures OrDynamic(LookupIn(b, path)) == Inference.ApplyPath(BlockObjectType(b), path)
    decreases |path|
  {
    var whole := BlockObjectType(b);
    if path[0] in b.attributes {
      var t := AttributeType(b.attributes[path[0]]);
      assert whole.attrs[path[0]] == t;
      WalkIsApplyPath(t, path[1..]);
    } else if path[0] in b.blocks {
      if |path| > 1 {
        LookupIsObjectPath(b.blocks[path[0]].block, path[1..]);
      }
    } else {
      assert path[0] !in whole.attrs;
    }
  }

  /** The first block the path steps through is a list or a set. */
  predicate StepsThroughSequence(b: Block, path: seq<string>) {
    && |path| > 1 && path[0] in b.blocks
    && b.blocks[path[0]].nesting in {"list", "set"}
  }

  /** The path leads to a known type inside `t`. */
  predicate KnownIn(t: Type, steps: seq<string>)
    decreases |steps|
  {
    if steps == [] then !t.Dynamic?
    else
      match t
      case Object(attrs, _) => steps[0] in attrs && KnownIn(attrs[steps[0]], steps[1..])
      case Map(e) => KnownIn(e, steps[1..])
      case _ => false
  }

  /** The path names something of known type in the block, blocks being stepped through whatever their nesting. */
  predicate KnownAt(b: Block, steps: seq<string>)
    requires steps != []
    decreases |steps|
  {
    if steps[0] in b.attributes then KnownIn(AttributeType(b.attributes[steps[0]]), steps[1..])
    else steps[0] in b.blocks && (|steps| == 1 || KnownAt(b.blocks[steps[0]].block, steps[1..]))
  }

  lemma {:induction false} KnownIffFound(t: Type, steps: seq<string>)
    ensures KnownIn(t, steps) <==> !Inference.ApplyPath(t, steps).Dynamic?
    decreases |steps|
  {
    if steps != [] {
      match t
      case Object(attrs, _) => if steps[0] in attrs { KnownIffFound(attrs[steps[0]], steps[1..]); }
      case Map(e) => KnownIffFound(e, steps[1..]);
      case _ =>
    }
  }

  lemma {:induction false} KnownIffLookedUp(b: Block, steps: seq<string>)
    requires steps != []
    ensures KnownAt(b, steps) <==> !OrDynamic(LookupIn(b, steps)).Dynamic?
    decreases |steps|
  {
    if steps[0] in b.attributes {
      KnownIffFound(AttributeType(b.attributes[steps[0]]), steps[1..]);
      WalkIsApplyPath(AttributeType(b.attributes[steps[0]]), steps[1..]);
    } else if steps[0] in b.blocks && |steps| > 1 {
      KnownIffLookedUp(b.blocks[steps[0]].block, steps[1..]);
    }
  }

  /**
    Through a list or set block the object view is always unknown. The lookup steps through the block
    regardless, so the two views differ exactly when the rest of the path names something known in it,
    or in the attribute that hides the block from the lookup.
   */
  lemma {:induction false} SequenceStepIsUnknown(b: Block, path: seq<string>)
    requires StepsThroughSequence(b, path)
    ensures Inference.ApplyPath(BlockObjectType(b), path) == Dynamic
    ensures OrDynamic(LookupIn(b, path)) != Dynamic <==>
      if path[0] in b.attributes then KnownIn(AttributeType(b.attributes[path[0]]), path[1..])
      else KnownAt(b.blocks[path[0]].block, path[1..])
  {
    assert BlockObjectType(b).attrs[path[0]].List? || BlockObjectType(b).attrs[path[0]].Set?;
    KnownIffLookedUp(b, path);
  }

  /** What the block declares under `name`, as the object view has it. */
  function Nested(b: Block, name: string): Type
    requires name in b.blocks
  {
    WrapNesting(b.blocks[name].nesting, BlockObjectType(b.blocks[name].block))
  }

  /** The type `t` declares `u` at `steps`. */
  predicate Declares(t: Type, steps: seq<string>, u: Type)
    decreases |steps|
  {
    if steps == [] then u == t
    else
      match t
      case Object(attrs, _) => steps[0] in attrs && Declares(attrs[steps[0]], steps[1..], u)
      case Map(e) => Declares(e, steps[1..], u)
      case _ => false
  }

  /** The block declares `u` at `steps`, blocks being stepped through whatever their nesting. */
  predicate DeclaresAt(b: Block, steps: seq<string>, u: Type)
    requires steps != []
    decreases |steps|
  {
    if steps[0] in b.attributes then Declares(AttributeType(b.attributes[steps[0]]), steps[1..], u)
    else
      && steps[0] in b.blocks
      && if |steps| == 1 then u == Nested(b, steps[0]) else DeclaresAt(b.blocks[steps[0]].block, steps[1..], u)
  }

  lemma {:induction false} DeclaresIff(t: Type, steps: seq<string>, u: Type)
    requires !u.Dynamic?
    ensures Declares(t, steps, u) <==> Inference.ApplyPath(t, steps) == u
    decreases |steps|
  {
    if steps != [] {
      match t
      case Object(attrs, _) => if steps[0] in attrs { DeclaresIff(attrs[steps[0]], steps[1..], u); }
      case Map(e) => DeclaresIff(e, steps[1..], u);
      case _ =>
    }
  }

  lemma {:induction false} DeclaresAtIff(b: Block, steps: seq<string>, u: Type)
    requires steps != [] && !u.Dynamic?
    ensures DeclaresAt(b, steps, u) <==> OrDynamic(LookupIn(b, steps)) == u
    decreases |steps|
  {
    if steps[0] in b.attributes {
      DeclaresIff(AttributeType(b.attributes[steps[0]]), steps[1..], u);
      WalkIsApplyPath(AttributeType(b.attributes[steps[0]]), steps[1..]);
    } else if steps[0] in b.blocks && |steps| > 1 {
      DeclaresAtIff(b.blocks[steps[0]].block, steps[1..], u);
    }
  }

  /** Of two types with a path into each, neither leads to a known type or both declare the same one. */
  ghost predicate SameDeclared(t: Type, s: Type, steps: seq<string>) {
    KnownIn(t, steps) || KnownIn(s, steps) ==> exists u: Type :: !u.Dynamic? && Declares(t, steps, u) && Declares(s, steps, u)
  }

  lemma {:induction false} SameDeclaredIff(t: Type, s: Type, steps: seq<string>)
    ensures SameDeclared(t, s, steps) <==> Inference.ApplyPath(t, steps) == Inference.ApplyPath(s, steps)
  {
    KnownIffFound(t, steps);
    KnownIffFound(s, steps);
    var u := Inference.ApplyPath(t, steps);
    if SameDeclared(t, s, steps) && !(u.Dynamic? && Inference.ApplyPath(s, steps).Dynamic?) {
      var v: Type :| !v.Dynamic? && Declares(t, steps, v) && Declares(s, steps, v);
      DeclaresIff(t, steps, v);
      DeclaresIff(s, steps, v);
    }
    if !u.Dynamic? {
      DeclaresIff(t, steps, u);
      DeclaresIff(s, steps, u);
    }
  }

  /**
    Under a map block the object view takes a step for a key, the lookup takes it for a name. For a
    step that names nothing the lookup is lost, so what follows must lead nowhere in the object either.
    If the step is a declared name, it and what follows must lead nowhere known, as must what follows
    without it, or both to the same declared type.
   */
  ghost predicate KeyStepAgrees(b: Block, key: string, rest: seq<string>) {
    var whole := BlockObjectType(b);
    if key in b.attributes || key in b.blocks then
      KnownAt(b, [key] + rest) || KnownIn(whole, rest) ==>
        exists u: Type :: !u.Dynamic? && DeclaresAt(b, [key] + rest, u) && Declares(whole, rest, u)
    else rest != [] && !KnownIn(whole, rest)
  }

  lemma {:induction false} KeyStepIff(b: Block, key: string, rest: seq<string>)
    requires key in b.attributes || key in b.blocks
    ensures KeyStepAgrees(b, key, rest) <==> OrDynamic(LookupIn(b, [key] + rest)) == Inference.ApplyPath(BlockObjectType(b), rest)
  {
    hide BlockObjectType, LookupIn, Declares, DeclaresAt, KnownIn, KnownAt;
    var whole, path := BlockObjectType(b), [key] + rest;
    KnownIffFound(whole, rest);
    KnownIffLookedUp(b, path);
    var u, v := OrDynamic(LookupIn(b, path)), Inference.ApplyPath(whole, rest);
    if KeyStepAgrees(b, key, rest) && !(u.Dynamic? && v.Dynamic?) {
      var w: Type :| !w.Dynamic? && DeclaresAt(b, path, w) && Declares(whole, rest, w);
      DeclaresAtIff(b, path, w);
      DeclaresIff(whole, rest, w);
    }
    if !u.Dynamic? {
      DeclaresAtIff(b, path, u);
      DeclaresIff(whole, rest, u);
    }
  }

  /**
    What has to hold of a schema and a path for the two views to agree. Of a name that is both
    attribute and block the lookup reads the attribute and the object view the block, so both have to
    declare the same.
   */
  ghost predicate ViewsAgree(b: Block, path: seq<string>)
    requires path != []
    decreases |path|
  {
    var name, rest := path[0], path[1..];
    if name !in b.blocks then true
    else if name in b.attributes then
      SameDeclared(AttributeType(b.attributes[name]), Nested(b, name), rest)
    else if rest == [] then true
    else
      var nested := b.blocks[name];
      if nested.nesting == "list" || nested.nesting == "set" then !KnownAt(nested.block, rest)
      else if nested.nesting == "map" then KeyStepAgrees(nested.block, rest[0], rest[1..])
      else ViewsAgree(nested.block, rest)
  }

  /** Looking up a path and walking the whole-object type give one type if and only if schema and path are as described. */
  lemma {:induction false} ViewsAgreeIff(b: Block, path: seq<string>)
    requires path != []
    ensures OrDynamic(LookupIn(b, path)) == Inference.ApplyPath(BlockObjectType(b), path) <==> ViewsAgree(b, path)
    decreases |path|
  {
    var name, rest := path[0], path[1..];
    var whole := BlockObjectType(b);
    if name in b.attributes {
      WalkIsApplyPath(AttributeType(b.attributes[name]), rest);
      assert whole.attrs[name] == if name in b.blocks then Nested(b, name) else AttributeType(b.attributes[name]);
      if name in b.blocks {
        SameDeclaredIff(AttributeType(b.attributes[name]), Nested(b, name), rest);
      }
    } else if name !in b.blocks {
      assert name !in whole.attrs;
    } else {
      assert whole.attrs[name] == Nested(b, name);
      if rest != [] {
        NestedStep(b, path);
        ViewsAgreeIff(b.blocks[name].block, rest);
      }
    }
  }

  /** One step into a block that no attribute hides. */
  lemma {:induction false} NestedStep(b: Block, path: seq<string>)
    requires |path| > 1 && path[0] in b.blocks && path[0] !in b.attributes
    ensures var nested, rest := b.blocks[path[0]], path[1..];
      var lookup, inner := OrDynamic(LookupIn(b, path)), Inference.ApplyPath(Nested(b, path[0]), rest);
      && lookup == OrDynamic(LookupIn(nested.block, rest))
      && (nested.nesting == "list" || nested.nesting == "set" ==> (lookup == inner <==> !KnownAt(nested.block, rest)))
      && (nested.nesting == "map" ==> (lookup == inner <==> KeyStepAgrees(nested.block, rest[0], rest[1..])))
      && (!WrapsCollection(nested.nesting) ==> inner == Inference.ApplyPath(BlockObjectType(nested.block), rest))
  {
    hide BlockObjectType, KeyStepAgrees;
    var nested, rest := b.blocks[path[0]], path[1..];
    KeyStepSplit(nested.block, rest[0], rest[1..]);
    KnownIffLookedUp(nested.block, rest);
    assert [rest[0]] + rest[1..] == rest;
    KnownIffFound(BlockObjectType(nested.block), rest[1..]);
    ObjectIsKnown(nested.block);
  }

  lemma {:induction false} KeyStepSplit(b: Block, key: string, rest: seq<string>)
    ensures KeyStepAgrees(b, key, rest) <==>
      if key in b.attributes || key in b.blocks then
        OrDynamic(LookupIn(b, [key] + rest)) == Inference.ApplyPath(BlockObjectType(b), rest)
      else rest != [] && !KnownIn(BlockObjectType(b), rest)
  {
    if key in b.attributes || key in b.blocks {
      KeyStepIff(b, key, rest);
    }
  }

  lemma {:induction false} ObjectIsKnown(b: Block)
    ensures BlockObjectType(b).Object?
  {
  }

  /** A block with one block `rule`, nested as `nesting` says, that holds the string attribute `id`. */
  function Rules(nesting: string): Block {
    Block(map[], map["rule" := NestedBlock(nesting, 0, 0, Rule())])
  }

  function Rule(): Block {
    Block(map["id" := Attribute(Some(String), false)], map[])
  }

  lemma {:induction false} RuleViews()
    ensures LookupIn(Rule(), ["id"]) == Some(String) && BlockObjectType(Rule()).Object?
    ensures Inference.ApplyPath(BlockObjectType(Rule()), ["id"]) == String
    ensures LookupIn(Rule(), ["key", "id"]) == None
  {
    assert ["id"][1..] == [];
    assert BlockObjectType(Rule()).attrs == map["id" := String];
  }

  /** Through a list block the lookup finds the string and the object view nothing. */
  lemma {:induction false} ListViewsDiffer()
    ensures OrDynamic(LookupIn(Rules("list"), ["rule", "id"])) == String
    ensures Inference.ApplyPath(BlockObjectType(Rules("list")), ["rule", "id"]) == Dynamic
  {
    hide BlockObjectType, LookupIn;
    var b, path := Rules("list"), ["rule", "id"];
    assert path[1..] == ["id"];
    RuleViews();
    NestedStep(b, path);
    SequenceStepIsUnknown(b, path);
  }

  /** Through a map block it is the other way round. */
  lemma {:induction false} MapViewsDiffer()
    ensures OrDynamic(LookupIn(Rules("map"), ["rule", "key", "id"])) == Dynamic
    ensures Inference.ApplyPath(BlockObjectType(Rules("map")), ["rule", "key", "id"]) == String
  {
    hide LookupIn;
    var b, path := Rules("map"), ["rule", "key", "id"];
    assert path[1..] == ["key", "id"] && path[1..][1..] == ["id"];
    RuleViews();
    NestedStep(b, path);
    assert BlockObjectType(b).attrs["rule"] == Map(BlockObjectType(Rule()));
  }

  // ------------------------------------------------------------------ inference over a schema

  function SchemaResolver(s: Schema): Inference.Resolver {
    Inference.Resolver(
      (resourceType, attrPath, isData) => LookupType(s, resourceType, attrPath, isData),
      (resourceType, isData) => ResourceAttributes(s, resourceType, isData))
  }

  ghost predicate DotFree(path: seq<string>) {
    forall i :: 0 <= i < |path| ==> '.' !in path[i]
  }

  /** `addr` is declared and `path` is a transparent path of dot-free names into its schema, if it has one. */
  ghost predicate PathInto(m: Inference.Symbols, s: Schema, addr: string, path: seq<string>) {
    && m.resolver == Some(SchemaResolver(s)) && addr in m.resources
    && path != [] && DotFree(path)
    && var ref := m.resources[addr];
       var b := SelectBlock(s, ref.typeName, ref.isData);
       b.Some? ==> Transparent(b.value, path)
  }

  lemma {:induction false} AttributeIsObjectPath(m: Inference.Symbols, s: Schema, addr: string, path: seq<string>)
    requires PathInto(m, s, addr, path)
    ensures Inference.ResourceAttr(m, m.resources[addr], path)
         == Inference.ApplyPath(Inference.ResourceAttr(m, m.resources[addr], []), path)
  {
    var ref := m.resources[addr];
    SplitJoin(path, '.');
    var b := SelectBlock(s, ref.typeName, ref.isData);
    if b.Some? {
      LookupIsObjectPath(b.value, path);
    }
  }

  /** For a single resource, the type of `r.p` is the path `p` applied to the type of `r`. */
  lemma {:induction false} ReferenceIsObjectPath(m: Inference.Symbols, s: Schema, addr: string, path: seq<string>)
    requires PathInto(m, s, addr, path) && !m.resources[addr].repeated
    ensures Inference.ResourceType(m, addr, path) == Inference.ApplyPath(Inference.ResourceType(m, addr, []), path)
  {
    AttributeIsObjectPath(m, s, addr, path);
  }

  /** For a repeated resource, `r[*].p` and `r.p` get the same type. */
  lemma {:induction false} SplatIsReference(m: Inference.Symbols, s: Schema, addr: string, path: seq<string>, each: Inference.Expr)
    requires PathInto(m, s, addr, path) && m.resources[addr].repeated
    requires Inference.SplatEachPath(each) == Some(path)
    ensures Inference.SplatType(m.order, Inference.ResourceType(m, addr, []), each) == Inference.ResourceType(m, addr, path)
  {
    AttributeIsObjectPath(m, s, addr, path);
  }

  // ------------------------------------------------------------------ the same on expressions

  function AttrSteps(path: seq<string>): seq<Inference.Step> {
    seq(|path|, i requires 0 <= i < |path| => Inference.Attr(path[i]))
  }

  lemma {:induction false} AttrStepsNames(path: seq<string>)
    ensures Inference.TraversalNames(AttrSteps(path)) == Some(path)
    decreases |path|
  {
    if path != [] {
      AttrStepsNames(path[1..]);
      assert AttrSteps(path)[1..] == AttrSteps(path[1..]);
      assert [path[0]] + path[1..] == path;
    }
  }

  /** The reference `kind.name.p`. */
  function Reference(kind: string, name: string, path: seq<string>): Inference.Expr {
    Inference.ScopeTraversal([Inference.Root(kind)] + AttrSteps([name] + path))
  }

  /** The expression `kind.name[*].p`. */
  function SplatReference(kind: string, name: string, path: seq<string>): Inference.Expr {
    Inference.Splat(Reference(kind, name, []), Inference.RelativeTraversal(Inference.AnonSymbol, AttrSteps(path)))
  }

  /** `kind` is neither an iterator in scope nor one of the reserved roots, so it names a resource type. */
  ghost predicate NamesResource(scope: Inference.Scope, kind: string) {
    && Inference.LookupScope(scope, kind) == None
    && kind !in {"var", "local", "module", "data"} && kind !in Inference.META_ARGUMENTS
  }

  lemma {:induction false} RunReference(m: Inference.Symbols, scope: Inference.Scope, busy: set<string>, cache: Inference.Cache,
      kind: string, name: string, path: seq<string>)
    requires NamesResource(scope, kind)
    ensures Inference.Run(m, scope, busy, cache, Reference(kind, name, path))
         == Inference.Outcome(Inference.ResourceType(m, kind + "." + name, path), cache)
  {
    var steps := Reference(kind, name, path).steps;
    AttrStepsNames([name] + path);
    assert steps[1..] == AttrSteps([name] + path);
    assert ([name] + path)[1..] == path;
  }

  lemma {:induction false} SplatExpressionIsReference(m: Inference.Symbols, s: Schema, scope: Inference.Scope, busy: set<string>,
      cache: Inference.Cache, kind: string, name: string, path: seq<string>)
    requires NamesResource(scope, kind)
    requires PathInto(m, s, kind + "." + name, path) && m.resources[kind + "." + name].repeated
    ensures Inference.Run(m, scope, busy, cache, SplatReference(kind, name, path)).t
         == Inference.Run(m, scope, busy, cache, Reference(kind, name, path)).t
  {
    var e, source := SplatReference(kind, name, path), Reference(kind, name, []);
    RunReference(m, scope, busy, cache, kind, name, []);
    RunReference(m, scope, busy, cache, kind, name, path);
    AttrStepsNames(path);
    SplatIsReference(m, s, kind + "." + name, path, e.each);
    assert Inference.Operands(e) == [source] && [source][1..] == [];
    assert Inference.RunAll(m, scope, busy, cache, e, []) == Inference.Outcomes([], cache);
  }

  // ------------------------------------------------------------------ what a reference is declared as

  /** The reference `data.kind.name.p`. */
  function DataReference(kind: string, name: string, path: seq<string>): Inference.Expr {
    Inference.ScopeTraversal([Inference.Root("data")] + AttrSteps([kind, name] + path))
  }

  /** `t` is an object with the attributes of the block, each of its declared type, and an attribute for every nested block. */
  ghost predicate TypesBlock(t: Type, b: Block) {
    && t.Object? && t.attrs.Keys == b.attributes.Keys + b.blocks.Keys
    && (forall n :: n in b.attributes && n !in b.blocks ==> b.attributes[n].t.Some? ==> t.attrs[n] == b.attributes[n].t.value)
    && forall n :: n in b.blocks ==> TypesNested(t.attrs[n], b.blocks[n])
  }

  /** A list, set or map of objects as the nesting says, and otherwise one object. */
  ghost predicate TypesNested(t: Type, nested: NestedBlock) {
    match nested.nesting
    case "list" => t.List? && TypesBlock(t.elem, nested.block)
    case "set" => t.Set? && TypesBlock(t.elem, nested.block)
    case "map" => t.Map? && TypesBlock(t.elem, nested.block)
    case _ => TypesBlock(t, nested.block)
  }

  lemma {:induction false} ObjectTypesBlock(b: Block)
    ensures TypesBlock(BlockObjectType(b), b)
    decreases b
  {
    forall n | n in b.blocks ensures TypesNested(WrapNesting(b.blocks[n].nesting, BlockObjectType(b.blocks[n].block)), b.blocks[n]) {
      ObjectTypesBlock(b.blocks[n].block);
    }
  }

  /** What the schema declares under a name of the block. */
  ghost predicate DeclaredAs(b: Block, name: string, t: Type) {
    if name in b.attributes then b.attributes[name].t == Some(t) else name in b.blocks && TypesNested(t, b.blocks[name])
  }

  lemma {:induction false} LookupIsDeclared(b: Block, name: string)
    requires if name in b.attributes then b.attributes[name].t.Some? else name in b.blocks
    ensures LookupIn(b, [name]).Some? && DeclaredAs(b, name, LookupIn(b, [name]).value)
  {
    hide BlockObjectType;
    if name !in b.attributes {
      ObjectTypesBlock(b.blocks[name].block);
    }
  }

  /** A dot-free name that the block declares. */
  ghost predicate DeclaresName(b: Block, name: string) {
    '.' !in name && if name in b.attributes then b.attributes[name].t.Some? else name in b.blocks
  }

  lemma {:induction false} DeclaredType(m: Inference.Symbols, s: Schema, addr: string, name: string)
    requires m.resolver == Some(SchemaResolver(s)) && addr in m.resources && !m.resources[addr].repeated
    requires var ref := m.resources[addr];
      var b := SelectBlock(s, ref.typeName, ref.isData); b.Some? && DeclaresName(b.value, name)
    ensures var ref := m.resources[addr];
      DeclaredAs(SelectBlock(s, ref.typeName, ref.isData).value, name, Inference.ResourceType(m, addr, [name]))
  {
    hide LookupIn, BlockObjectType, DeclaredAs;
    SplitJoin([name], '.');
    var ref := m.resources[addr];
    LookupIsDeclared(SelectBlock(s, ref.typeName, ref.isData).value, name);
  }

  /** `type.name.attr` has the type that the table of resources declares. */
  lemma {:induction false} ResourceIsDeclared(m: Inference.Symbols, s: Schema, scope: Inference.Scope, busy: set<string>, cache: Inference.Cache,
      kind: string, name: string, attr: string)
    requires m.resolver == Some(SchemaResolver(s)) && NamesResource(scope, kind)
    requires kind + "." + name in m.resources && m.resources[kind + "." + name] == Inference.ResourceRef(kind, false, false)
    requires kind in s.resources && DeclaresName(s.resources[kind], attr)
    ensures DeclaredAs(s.resources[kind], attr, Inference.Run(m, scope, busy, cache, Reference(kind, name, [attr])).t)
  {
    hide DeclaredAs, DeclaresName;
    RunReference(m, scope, busy, cache, kind, name, [attr]);
    DeclaredType(m, s, kind + "." + name, attr);
  }

  /** `data.type.name.attr` has the type that the table of data sources declares. */
  lemma {:induction false} DataSourceIsDeclared(m: Inference.Symbols, s: Schema, scope: Inference.Scope, busy: set<string>, cache: Inference.Cache,
      kind: string, name: string, attr: string)
    requires m.resolver == Some(SchemaResolver(s)) && Inference.LookupScope(scope, "data") == None
    requires var addr := "data." + kind + "." + name; addr in m.resources && m.resources[addr] == Inference.ResourceRef(kind, true, false)
    requires kind in s.dataSources && DeclaresName(s.dataSources[kind], attr)
    ensures DeclaredAs(s.dataSources[kind], attr, Inference.Run(m, scope, busy, cache, DataReference(kind, name, [attr])).t)
  {
    hide DeclaredAs, DeclaresName;
    var steps := DataReference(kind, name, [attr]).steps;
    AttrStepsNames([kind, name] + [attr]);
    assert steps[1..] == AttrSteps([kind, name] + [attr]);
    assert ([kind, name] + [attr])[2..] == [attr];
    DeclaredType(m, s, "data." + kind + "." + name, attr);
  }
}
