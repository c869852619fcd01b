/**
  Provider configurations are checked against the authoritative schema while they are rendered.
 */
module ProviderConfig {
  import opened Basics
  import opened Sorting
  import opened AssemblyTypes
  import opened ValuePrinter
  import opened References
  import ProviderSchema
  import CtyTypes

  /** The blocks of one name form a group. */
  datatype Configuration = Configuration(arguments: map<string, FieldValue>, blocks: map<string, Group>)
  datatype Group = Group(each: seq<Configuration>)

  datatype RenderBlock = RenderBlock(arguments: map<string, Expression>, blocks: map<string, RenderGroup>)
  datatype RenderGroup = RenderGroup(each: seq<RenderBlock>)

  /** Text typed for an attribute declared `string` is that string, unless it reads as an expression over known names. */
  function ArgumentText(lib: Library, scope: Scope, v: FieldValue, a: ProviderSchema.Attribute): Option<Expression> {
    if v.mode != "literal" || a.t != Some(CtyTypes.String) then ResolveFieldValue(lib, scope, v)
    else if Blank(v.literal) then None
    else if lib.knownString(v.literal) then Some(Typed(v.literal))
    else Some(Constant(v.literal))
  }

  function BlocksNamed(c: Configuration, name: string): (r: seq<Configuration>)
    ensures forall i :: 0 <= i < |r| ==> r[i] < c
  {
    if name in c.blocks then c.blocks[name].each else []
  }

  // ------------------------------------------------------------------ what a configuration must satisfy

  predicate RequiredGiven(c: Configuration, schema: ProviderSchema.Block) {
    forall n :: n in schema.attributes && schema.attributes[n].required ==> n in c.arguments
  }

  predicate ArgumentFits(lib: Library, scope: Scope, c: Configuration, schema: ProviderSchema.Block, name: string)
    requires name in c.arguments
  {
    name in schema.attributes && ArgumentText(lib, scope, c.arguments[name], schema.attributes[name]).Some?
  }

  predicate CountFits(c: Configuration, schema: ProviderSchema.Block, name: string)
    requires name in schema.blocks
  {
    var count := |BlocksNamed(c, name)|;
    schema.blocks[name].minItems <= count && (schema.blocks[name].maxItems > 0 ==> count <= schema.blocks[name].maxItems)
  }

  predicate BlocksFit(lib: Library, scope: Scope, c: Configuration, schema: ProviderSchema.Block, name: string)
    decreases c, 0
  {
    && name in schema.blocks
    && forall i :: 0 <= i < |BlocksNamed(c, name)| ==> ConfigurationConforms(lib, scope, BlocksNamed(c, name)[i], schema.blocks[name].block)
  }

  /** Required arguments are given, arguments and blocks are declared and fit, and every count is within bounds, at every depth. */
  predicate ConfigurationConforms(lib: Library, scope: Scope, c: Configuration, schema: ProviderSchema.Block)
    decreases c, 1
  {
    && RequiredGiven(c, schema)
    && (forall n :: n in c.arguments ==> ArgumentFits(lib, scope, c, schema, n))
    && (forall n :: n in c.blocks ==> BlocksFit(lib, scope, c, schema, n))
    && (forall n :: n in schema.blocks ==> CountFits(c, schema, n))
  }

  // ------------------------------------------------------------------ what is rendered

  function RenderedArguments(lib: Library, scope: Scope, c: Configuration, schema: ProviderSchema.Block): map<string, Expression> {
    map n | n in c.arguments && ArgumentFits(lib, scope, c, schema, n) :: ArgumentText(lib, scope, c.arguments[n], schema.attributes[n]).value
  }

  /** Everything that can be rendered; parts that do not conform are left out. */
  function RenderedBlock(lib: Library, scope: Scope, c: Configuration, schema: ProviderSchema.Block): RenderBlock
    decreases c, 1
  {
    RenderBlock(
      RenderedArguments(lib, scope, c, schema),
      map n | n in c.blocks && n in schema.blocks && c.blocks[n].each != [] ::
        RenderGroup(RenderedBlocks(lib, scope, c, schema, n)))
  }

  function RenderedBlocks(lib: Library, scope: Scope, c: Configuration, schema: ProviderSchema.Block, name: string): (r: seq<RenderBlock>)
    requires name in schema.blocks
    decreases c, 0
  {
    seq(|BlocksNamed(c, name)|, i requires 0 <= i < |BlocksNamed(c, name)| =>
      RenderedBlock(lib, scope, BlocksNamed(c, name)[i], schema.blocks[name].block))
  }

  // ------------------------------------------------------------------ checking while rendering

  method BuildProviderConfiguration(lib: Library, scope: Scope, c: Configuration, schema: ProviderSchema.Block)
    returns (rendered: RenderBlock, clean: bool)
    ensures rendered == RenderedBlock(lib, scope, c, schema)
    ensures clean <==> ConfigurationConforms(lib, scope, c, schema)
    decreases c, 1
  {
    hide BlocksFit, ArgumentFits, RequiredGiven, CountFits, RenderedArguments, RenderedBlocks;
    var given := CheckRequired(c, schema);
    var arguments, argumentsFit := BuildArguments(lib, scope, c, schema);
    var blocks, blocksFit := BuildBlocks(lib, scope, c, schema);
    var countsFit := CheckCounts(c, schema);
    rendered := RenderBlock(arguments, blocks);
    clean := given && argumentsFit && blocksFit && countsFit;
  }

  method CheckRequired(c: Configuration, schema: ProviderSchema.Block) returns (clean: bool)
    ensures clean <==> RequiredGiven(c, schema)
  {
    clean := true;
    var todo := schema.attributes.Keys;
    while todo != {}
      invariant todo <= schema.attributes.Keys
      invariant clean <==> forall n :: n in schema.attributes.Keys - todo && schema.attributes[n].required ==> n in c.arguments
    {
      var name :| name in todo;
      Visit(schema.attributes.Keys, todo, name);
      if schema.attributes[name].required && name !in c.arguments {
        clean := false;
      }
      todo := todo - {name};
    }
  }

  /** The arguments among the first names of `names`. */
  ghost function ArgumentsAmong(lib: Library, scope: Scope, c: Configuration, schema: ProviderSchema.Block, names: seq<string>): map<string, Expression> {
    map n | n in names && n in c.arguments && ArgumentFits(lib, scope, c, schema, n) ::
      ArgumentText(lib, scope, c.arguments[n], schema.attributes[n]).value
  }

  ghost predicate AllArgumentsFit(lib: Library, scope: Scope, c: Configuration, schema: ProviderSchema.Block, names: seq<string>) {
    forall n :: n in names && n in c.arguments ==> ArgumentFits(lib, scope, c, schema, n)
  }

  lemma {:induction false} NextArgument(lib: Library, scope: Scope, c: Configuration, schema: ProviderSchema.Block, names: seq<string>, name: string)
    requires name in c.arguments
    ensures ArgumentsAmong(lib, scope, c, schema, names + [name]) ==
      if ArgumentFits(lib, scope, c, schema, name) then
        ArgumentsAmong(lib, scope, c, schema, names)[name := ArgumentText(lib, scope, c.arguments[name], schema.attributes[name]).value]
      else ArgumentsAmong(lib, scope, c, schema, names)
    ensures AllArgumentsFit(lib, scope, c, schema, names + [name])
      <==> AllArgumentsFit(lib, scope, c, schema, names) && ArgumentFits(lib, scope, c, schema, name)
  {
    hide ArgumentText;
  }

  lemma {:induction false} NoArguments(lib: Library, scope: Scope, c: Configuration, schema: ProviderSchema.Block, names: seq<string>)
    ensures ArgumentsAmong(lib, scope, c, schema, names[..0]) == map[] && AllArgumentsFit(lib, scope, c, schema, names[..0])
  {
  }

  lemma {:induction false} EveryArgument(lib: Library, scope: Scope, c: Configuration, schema: ProviderSchema.Block, names: seq<string>)
    requires forall n :: n in names <==> n in c.arguments
    ensures ArgumentsAmong(lib, scope, c, schema, names) == RenderedArguments(lib, scope, c, schema)
    ensures AllArgumentsFit(lib, scope, c, schema, names) <==> forall n :: n in c.arguments ==> ArgumentFits(lib, scope, c, schema, n)
  {
    hide ArgumentText;
  }

  method BuildArguments(lib: Library, scope: Scope, c: Configuration, schema: ProviderSchema.Block)
    returns (arguments: map<string, Expression>, clean: bool)
    ensures arguments == RenderedArguments(lib, scope, c, schema)
    ensures clean <==> forall n :: n in c.arguments ==> ArgumentFits(lib, scope, c, schema, n)
  {
    hide ArgumentText, ArgumentsAmong, AllArgumentsFit, Arranged, Ascending, SortBy, RenderedArguments;
    arguments, clean := map[], true;
    var names := SortedKeys(c.arguments);
    NoArguments(lib, scope, c, schema, names);
    for i := 0 to |names|
      invariant arguments == ArgumentsAmong(lib, scope, c, schema, names[..i])
      invariant clean <==> AllArgumentsFit(lib, scope, c, schema, names[..i])
    {
      var name := names[i];
      assert names[..i + 1] == names[..i] + [name];
      assert name in names;
      NextArgument(lib, scope, c, schema, names[..i], name);
      if name !in schema.attributes {
        clean := false;
        continue;
      }
      var expression := ArgumentText(lib, scope, c.arguments[name], schema.attributes[name]);
      if expression.None? {
        clean := false;
        continue;
      }
      arguments := arguments[name := expression.value];
    }
    assert names[..|names|] == names;
    EveryArgument(lib, scope, c, schema, names);
  }

  ghost function BlocksAmong(lib: Library, scope: Scope, c: Configuration, schema: ProviderSchema.Block, names: seq<string>): map<string, RenderGroup> {
    map n | n in names && n in c.blocks && n in schema.blocks && c.blocks[n].each != [] ::
      RenderGroup(RenderedBlocks(lib, scope, c, schema, n))
  }

  ghost predicate AllBlocksFit(lib: Library, scope: Scope, c: Configuration, schema: ProviderSchema.Block, names: seq<string>) {
    forall n :: n in names ==> BlocksFit(lib, scope, c, schema, n)
  }

  lemma {:induction false} NextBlocks(lib: Library, scope: Scope, c: Configuration, schema: ProviderSchema.Block, names: seq<string>, name: string)
    requires name in c.blocks
    ensures BlocksAmong(lib, scope, c, schema, names + [name]) ==
      if name in schema.blocks && c.blocks[name].each != [] then
        BlocksAmong(lib, scope, c, schema, names)[name := RenderGroup(RenderedBlocks(lib, scope, c, schema, name))]
      else BlocksAmong(lib, scope, c, schema, names)
    ensures AllBlocksFit(lib, scope, c, schema, names + [name])
      <==> AllBlocksFit(lib, scope, c, schema, names) && BlocksFit(lib, scope, c, schema, name)
  {
    hide BlocksFit, RenderedBlocks;
  }

  lemma {:induction false} NoBlocks(lib: Library, scope: Scope, c: Configuration, schema: ProviderSchema.Block, names: seq<string>)
    ensures BlocksAmong(lib, scope, c, schema, names[..0]) == map[] && AllBlocksFit(lib, scope, c, schema, names[..0])
  {
  }

  lemma {:induction false} EveryBlock(lib: Library, scope: Scope, c: Configuration, schema: ProviderSchema.Block, names: seq<string>)
    requires forall n :: n in names <==> n in c.blocks
    ensures BlocksAmong(lib, scope, c, schema, names) == RenderedBlock(lib, scope, c, schema).blocks
    ensures AllBlocksFit(lib, scope, c, schema, names) <==> forall n :: n in c.blocks ==> BlocksFit(lib, scope, c, schema, n)
  {
    hide BlocksFit, RenderedBlocks;
  }

  method BuildBlocks(lib: Library, scope: Scope, c: Configuration, schema: ProviderSchema.Block)
    returns (blocks: map<string, RenderGroup>, clean: bool)
    ensures blocks == RenderedBlock(lib, scope, c, schema).blocks
    ensures clean <==> forall n :: n in c.blocks ==> BlocksFit(lib, scope, c, schema, n)
    decreases c, 0
  {
    hide BlocksFit, RenderedBlocks, RenderedBlock, BlocksAmong, AllBlocksFit, Arranged, Ascending, SortBy;
    blocks, clean := map[], true;
    var names := SortedKeys(c.blocks);
    NoBlocks(lib, scope, c, schema, names);
    for i := 0 to |names|
      invariant blocks == BlocksAmong(lib, scope, c, schema, names[..i])
      invariant clean <==> AllBlocksFit(lib, scope, c, schema, names[..i])
    {
      var name := names[i];
      assert names[..i + 1] == names[..i] + [name];
      assert name in names;
      NextBlocks(lib, scope, c, schema, names[..i], name);
      if name !in schema.blocks {
        UndeclaredDoesNotFit(lib, scope, c, schema, name);
        clean := false;
        continue;
      }
      var children, conform := BuildChildren(lib, scope, c, schema, name);
      clean := clean && conform;
      if children != [] {
        blocks := blocks[name := RenderGroup(children)];
      }
    }
    assert names[..|names|] == names;
    EveryBlock(lib, scope, c, schema, names);
  }

  lemma {:induction false} UndeclaredDoesNotFit(lib: Library, scope: Scope, c: Configuration, schema: ProviderSchema.Block, name: string)
    requires name !in schema.blocks
    ensures !BlocksFit(lib, scope, c, schema, name)
  {
  }

  method BuildChildren(lib: Library, scope: Scope, c: Configuration, schema: ProviderSchema.Block, name: string)
    returns (children: seq<RenderBlock>, clean: bool)
    requires name in c.blocks && name in schema.blocks
    ensures children == RenderedBlocks(lib, scope, c, schema, name) && |children| == |c.blocks[name].each|
    ensures clean <==> BlocksFit(lib, scope, c, schema, name)
    decreases c, 0, 0
  {
    hide ConfigurationConforms, RenderedBlock;
    var configurations, nested := BlocksNamed(c, name), schema.blocks[name].block;
    children, clean := [], true;
    for i := 0 to |configurations|
      invariant |children| == i && forall j :: 0 <= j < i ==> children[j] == RenderedBlock(lib, scope, configurations[j], nested)
      invariant clean <==> forall j :: 0 <= j < i ==> ConfigurationConforms(lib, scope, configurations[j], nested)
    {
      var child, conforms := BuildProviderConfiguration(lib, scope, configurations[i], nested);
      clean := clean && conforms;
      children := children + [child];
    }
  }

  method CheckCounts(c: Configuration, schema: ProviderSchema.Block) returns (clean: bool)
    ensures clean <==> forall n :: n in schema.blocks ==> CountFits(c, schema, n)
  {
    clean := true;
    var todo := schema.blocks.Keys;
    while todo != {}
      invariant todo <= schema.blocks.Keys
      invariant clean <==> forall n :: n in schema.blocks.Keys - todo ==> CountFits(c, schema, n)
    {
      var name :| name in todo;
      Visit(schema.blocks.Keys, todo, name);
      var count := |BlocksNamed(c, name)|;
      if count < schema.blocks[name].minItems {
        clean := false;
      }
      if schema.blocks[name].maxItems > 0 && count > schema.blocks[name].maxItems {
        clean := false;
      }
      todo := todo - {name};
    }
  }

  // ------------------------------------------------------------------ nothing is lost

  function RenderedNamed(r: RenderBlock, name: string): (each: seq<RenderBlock>)
    ensures forall i :: 0 <= i < |each| ==> each[i] < r
  {
    if name in r.blocks then r.blocks[name].each else []
  }

  /** The arguments of `c`, each with its resolved expression. */
  ghost predicate SameArguments(lib: Library, scope: Scope, c: Configuration, schema: ProviderSchema.Block, r: RenderBlock) {
    && r.arguments.Keys == c.arguments.Keys
    && forall n :: n in c.arguments ==>
      n in schema.attributes && ArgumentText(lib, scope, c.arguments[n], schema.attributes[n]) == Some(r.arguments[n])
  }

  ghost predicate SameBlocks(lib: Library, scope: Scope, c: Configuration, schema: ProviderSchema.Block, r: RenderBlock, name: string)
    decreases c, 0
  {
    && name in schema.blocks
    && |RenderedNamed(r, name)| == |BlocksNamed(c, name)|
    && forall i :: 0 <= i < |BlocksNamed(c, name)| ==>
      Complete(lib, scope, BlocksNamed(c, name)[i], schema.blocks[name].block, RenderedNamed(r, name)[i])
  }

  /** The rendered tree has the arguments of the configuration, resolved, and as many blocks of every name, at every depth. */
  ghost predicate Complete(lib: Library, scope: Scope, c: Configuration, schema: ProviderSchema.Block, r: RenderBlock)
    decreases c, 1
  {
    && SameArguments(lib, scope, c, schema, r)
    && (forall n :: n in r.blocks ==> n in c.blocks)
    && (forall n :: n in c.blocks ==> SameBlocks(lib, scope, c, schema, r, n))
  }

  lemma {:induction false} ConformingIsComplete(lib: Library, scope: Scope, c: Configuration, schema: ProviderSchema.Block)
    requires ConfigurationConforms(lib, scope, c, schema)
    ensures Complete(lib, scope, c, schema, RenderedBlock(lib, scope, c, schema))
    decreases c, 1
  {
    hide CountFits, ArgumentText, BlocksFit, SameBlocks;
    var r := RenderedBlock(lib, scope, c, schema);
    forall n | n in c.blocks ensures SameBlocks(lib, scope, c, schema, r, n) {
      BlocksAreComplete(lib, scope, c, schema, n);
    }
  }

  lemma {:induction false} BlocksAreComplete(lib: Library, scope: Scope, c: Configuration, schema: ProviderSchema.Block, name: string)
    requires name in c.blocks && BlocksFit(lib, scope, c, schema, name)
    ensures SameBlocks(lib, scope, c, schema, RenderedBlock(lib, scope, c, schema), name)
    decreases c, 0
  {
    hide ConfigurationConforms, Complete, RenderedArguments;
    var r, nested := RenderedBlock(lib, scope, c, schema), schema.blocks[name].block;
    assert RenderedNamed(r, name) == RenderedBlocks(lib, scope, c, schema, name);
    forall i | 0 <= i < |BlocksNamed(c, name)| ensures Complete(lib, scope, BlocksNamed(c, name)[i], nested, RenderedNamed(r, name)[i]) {
      ConformingIsComplete(lib, scope, BlocksNamed(c, name)[i], nested);
    }
  }

  // ------------------------------------------------------------------ closure

  lemma {:induction false} ArgumentIsClosed(lib: Library, scope: Scope, v: FieldValue, a: ProviderSchema.Attribute)
    requires ArgumentText(lib, scope, v, a).Some?
    ensures Mentions(ArgumentText(lib, scope, v, a).value) <= NamesIn(scope)
  {
    hide NamesIn, ResolveFieldValue;
    if ArgumentText(lib, scope, v, a) == ResolveFieldValue(lib, scope, v) {
      ResolvedIsClosed(lib, scope, v);
    }
  }
}
