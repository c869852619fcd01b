/**
  What a build without diagnostics means: every expression of the root module has the value that the
  canvas gives it.
 */
module AssemblyMeaning {
  import opened Basics
  import opened Strings
  import opened Sorting
  import opened AssemblyTypes
  import opened References
  import opened ReferenceMeaning
  import opened ModuleInputs
  import opened InputMeaning
  import opened HclReading
  import opened ProviderConfig
  import opened AssemblyBuild
  import ProviderSchema
  import CtyTypes

  // ------------------------------------------------------------------ meaning

  lemma {:induction false} CleanNamesIdentify(lib: Library, request: Request, documents: Documents)
    requires Clean(lib, request, documents)
    ensures DistinctNames(ScopeOf(request))
  {
    hide ProvidersClean, ModulesClean, VariableClean;
    var scope := ScopeOf(request);
    forall a, b | a in scope.variables && b in scope.variables && scope.variables[a].name == scope.variables[b].name ensures a == b {
      SameKeySameElement(request.variables, scope.variables[a], scope.variables[b], NameOfVariable);
    }
    forall a, b | a in scope.modules && b in scope.modules && scope.modules[a].localName == scope.modules[b].localName ensures a == b {
      SameKeySameElement(request.modules, scope.modules[a], scope.modules[b], NameOfModule);
    }
  }

  lemma {:induction false} SameKeySameElement<T>(xs: seq<T>, x: T, y: T, key: T -> string)
    requires DistinctKeys(xs, key) && x in xs && y in xs && key(x) == key(y)
    ensures x == y
  {
    var i, j :| 0 <= i < |xs| && 0 <= j < |xs| && xs[i] == x && xs[j] == y;
  }

  ghost function CountDenotes(scope: Scope, world: World, m: Multiplicity): Value
    requires Covers(world, scope) && m.expr.Some?
  {
    var v := Denotes(scope, world, m.expr.value);
    if m.mode == "conditional" then Choose(v, Number(1), Number(0)) else v
  }

  /** Text whose outermost operator is `?`, or that does not stand alone, does not become the condition of what is written after it. */
  predicate SuffixBinds(lib: Library, m: Multiplicity) {
    && m.mode == "conditional" && m.expr.Some? && m.expr.value.mode == "literal"
    && (IsConditional(lib, m.expr.value.literal) || !lib.standsAlone(m.expr.value.literal))
  }

  ghost predicate CountIsDirect(lib: Library, scope: Scope, m: Multiplicity) {
    m.expr.Some? ==> Direct(lib, scope, m.expr.value) && !SuffixBinds(lib, m)
  }

  /** The inputs and the repetition of a module block have the values that the canvas gives them, where they keep their meaning. */
  ghost predicate ModuleMeans(lib: Library, scope: Scope, contract: Contract, world: World, env: Env, node: ModuleNode, m: RenderModule)
    requires Covers(world, scope)
  {
    && (forall n :: n in node.values ==>
        && n in m.inputs && n in Declared(contract)
        && (InputIsDirect(lib, scope, node.values[n]) ==>
             Evaluate(env, m.inputs[n]) == InputDenotes(lib, scope, world, node.values[n], Declared(contract)[n].t)))
    && (m.count.Some? <==> node.multiplicity.kind == "count")
    && (m.count.Some? ==> node.multiplicity.expr.Some?)
    && (m.count.Some? && CountIsDirect(lib, scope, node.multiplicity) ==>
        Evaluate(env, m.count.value) == CountDenotes(scope, world, node.multiplicity))
    && (m.forEach.Some? <==> node.multiplicity.kind == "for_each")
    && (m.forEach.Some? ==>
        && node.multiplicity.variableNodeID.Some? && node.multiplicity.variableNodeID.value in world.variables
        && Evaluate(env, m.forEach.value) == world.variables[node.multiplicity.variableNodeID.value])
  }

  ghost function ArgumentDenotes(lib: Library, scope: Scope, world: World, v: FieldValue, a: ProviderSchema.Attribute): Value
    requires Covers(world, scope)
  {
    if v.mode == "literal" && a.t == Some(CtyTypes.String) && !lib.knownString(v.literal) then Text(v.literal) else Denotes(scope, world, v)
  }

  ghost predicate ArgumentsMean(lib: Library, scope: Scope, world: World, env: Env, c: Configuration, schema: ProviderSchema.Block, r: RenderBlock)
    requires Covers(world, scope)
  {
    forall n :: n in c.arguments ==>
      && n in r.arguments && n in schema.attributes
      && (Direct(lib, scope, c.arguments[n]) ==>
           Evaluate(env, r.arguments[n]) == ArgumentDenotes(lib, scope, world, c.arguments[n], schema.attributes[n]))
  }

  ghost predicate BlocksMean(lib: Library, scope: Scope, world: World, env: Env, c: Configuration, schema: ProviderSchema.Block, r: RenderBlock, n: string)
    requires Covers(world, scope)
    decreases c, 0
  {
    && n in schema.blocks
    && |RenderedNamed(r, n)| == |BlocksNamed(c, n)|
    && forall i :: 0 <= i < |BlocksNamed(c, n)| ==>
      ConfigurationMeans(lib, scope, world, env, BlocksNamed(c, n)[i], schema.blocks[n].block, RenderedNamed(r, n)[i])
  }

  /** The arguments of a configuration have the values that the canvas gives them, at every depth. */
  ghost predicate ConfigurationMeans(lib: Library, scope: Scope, world: World, env: Env, c: Configuration, schema: ProviderSchema.Block, r: RenderBlock)
    requires Covers(world, scope)
    decreases c, 1
  {
    && ArgumentsMean(lib, scope, world, env, c, schema, r)
    && forall n :: n in c.blocks ==> BlocksMean(lib, scope, world, env, c, schema, r, n)
  }

  lemma {:induction false} ArgumentMeans(lib: Library, scope: Scope, world: World, env: Env, v: FieldValue, a: ProviderSchema.Attribute)
    requires Covers(world, scope) && Represents(lib, env, world, scope) && ArgumentText(lib, scope, v, a).Some? && Direct(lib, scope, v)
    ensures Evaluate(env, ArgumentText(lib, scope, v, a).value) == ArgumentDenotes(lib, scope, world, v, a)
  {
    hide Covers, TrimLeft, TrimRight;
    if ArgumentText(lib, scope, v, a) == ResolveFieldValue(lib, scope, v) {
      ResolvedMeans(lib, scope, world, env, v);
    }
  }

  lemma {:induction false} RenderedConfigurationMeans(lib: Library, scope: Scope, world: World, env: Env, c: Configuration, schema: ProviderSchema.Block)
    requires Covers(world, scope) && Represents(lib, env, world, scope) && ConfigurationConforms(lib, scope, c, schema)
    ensures ConfigurationMeans(lib, scope, world, env, c, schema, RenderedBlock(lib, scope, c, schema))
    decreases c, 1
  {
    hide Represents, Covers, ArgumentText, ArgumentDenotes, Evaluate, BlocksMean, BlocksFit, CountFits, Direct;
    var r := RenderedBlock(lib, scope, c, schema);
    forall n | n in c.arguments
      ensures n in r.arguments && n in schema.attributes
      ensures Direct(lib, scope, c.arguments[n]) ==>
        Evaluate(env, r.arguments[n]) == ArgumentDenotes(lib, scope, world, c.arguments[n], schema.attributes[n])
    {
      assert ArgumentFits(lib, scope, c, schema, n);
      if Direct(lib, scope, c.arguments[n]) {
        ArgumentMeans(lib, scope, world, env, c.arguments[n], schema.attributes[n]);
      }
    }
    forall n | n in c.blocks ensures BlocksMean(lib, scope, world, env, c, schema, r, n) {
      RenderedBlocksMean(lib, scope, world, env, c, schema, n);
    }
  }

  lemma {:induction false} RenderedBlocksMean(lib: Library, scope: Scope, world: World, env: Env, c: Configuration, schema: ProviderSchema.Block, n: string)
    requires Covers(world, scope) && Represents(lib, env, world, scope)
    requires n in c.blocks && BlocksFit(lib, scope, c, schema, n)
    ensures BlocksMean(lib, scope, world, env, c, schema, RenderedBlock(lib, scope, c, schema), n)
    decreases c, 0
  {
    hide Represents, Covers, ConfigurationMeans, ConfigurationConforms, RenderedArguments;
    var r, nested := RenderedBlock(lib, scope, c, schema), schema.blocks[n].block;
    assert RenderedNamed(r, n) == RenderedBlocks(lib, scope, c, schema, n);
    forall i | 0 <= i < |BlocksNamed(c, n)|
      ensures ConfigurationMeans(lib, scope, world, env, BlocksNamed(c, n)[i], nested, RenderedNamed(r, n)[i])
    {
      RenderedConfigurationMeans(lib, scope, world, env, BlocksNamed(c, n)[i], nested);
    }
  }

  lemma {:induction false} CompiledModuleMeans(lib: Library, scope: Scope, world: World, env: Env, nodes: map<string, ProviderNode>, documents: Documents,
      node: ModuleNode)
    requires Covers(world, scope) && Represents(lib, env, world, scope)
    requires ModuleClean(lib, scope, nodes, documents, node)
    ensures ModuleMeans(lib, scope, documents.modules[node.nodeID], world, env, node, CompiledModule(lib, scope, nodes, documents, node))
  {
    hide Covers, InputText, InputDenotes, ResolveFieldValue, Denotes, BindingClean, CompiledBindings, SanitizeVersion, Declared, RequiredInputGiven,
      CountOf, ForEachOf, MultiplicityClean, Represents, Evaluate, CountDenotes, InputIsDirect, CountIsDirect;
    var contract, m := documents.modules[node.nodeID], CompiledModule(lib, scope, nodes, documents, node);
    forall n | n in node.values
      ensures n in m.inputs && n in Declared(contract)
      ensures InputIsDirect(lib, scope, node.values[n]) ==>
        Evaluate(env, m.inputs[n]) == InputDenotes(lib, scope, world, node.values[n], Declared(contract)[n].t)
    {
      assert InputClean(lib, scope, contract, node, n);
      if InputIsDirect(lib, scope, node.values[n]) {
        InputMeans(lib, scope, world, env, node.values[n], Declared(contract)[n].t);
      }
    }
    RepetitionMeans(lib, scope, world, env, node.multiplicity);
  }

  lemma {:induction false} RepetitionMeans(lib: Library, scope: Scope, world: World, env: Env, m: Multiplicity)
    requires Covers(world, scope) && Represents(lib, env, world, scope) && MultiplicityClean(lib, scope, m)
    ensures var count := CountOf(lib, scope, m);
      && (count.Some? <==> m.kind == "count")
      && (count.Some? ==> m.expr.Some?)
      && (count.Some? && CountIsDirect(lib, scope, m) ==> Evaluate(env, count.value) == CountDenotes(scope, world, m))
    ensures var forEach := ForEachOf(scope, m);
      && (forEach.Some? <==> m.kind == "for_each")
      && (forEach.Some? ==>
        && m.variableNodeID.Some? && m.variableNodeID.value in world.variables
        && Evaluate(env, forEach.value) == world.variables[m.variableNodeID.value])
  {
    hide ResolveFieldValue, Denotes, NoneAbsorbs, PlainOutputs, WithSuffix;
    if m.kind == "count" && CountIsDirect(lib, scope, m) {
      ResolvedMeans(lib, scope, world, env, m.expr.value);
      if m.mode == "conditional" {
        SuffixStandsApart(lib, scope, m);
      }
    }
  }

  lemma {:induction false} SuffixStandsApart(lib: Library, scope: Scope, m: Multiplicity)
    requires m.expr.Some? && m.mode == "conditional" && !SuffixBinds(lib, m)
    requires ResolveFieldValue(lib, scope, m.expr.value).Some?
    ensures var e := ResolveFieldValue(lib, scope, m.expr.value).value; WithSuffix(lib, e) == OneOrNone(e)
  {
    ReferenceIsNotTyped(lib, scope, m.expr.value);
  }

  lemma {:induction false} ReferenceIsNotTyped(lib: Library, scope: Scope, v: FieldValue)
    requires ResolveFieldValue(lib, scope, v).Some?
    ensures v.mode != "literal" ==> !ResolveFieldValue(lib, scope, v).value.Typed?
    ensures v.mode == "literal" ==> ResolveFieldValue(lib, scope, v).value == Typed(v.literal)
  {
    hide ModuleOutput, PathOf, WithPath;
    if v.mode != "literal" {
      if v.refNodeID in scope.variables {
        PathIsNotTyped(Variable(scope.variables[v.refNodeID].name), PathOf(v.refOutput));
      } else {
        var m, path := scope.modules[v.refNodeID], PathOf(v.refOutput);
        ModuleOutputIsOneOf(lib, scope, m, v.refOutput, v.refSelector);
        PathIsNotTyped(Module(m.localName), path);
        PathIsNotTyped(Splat(Module(m.localName), []), path);
        if v.refSelector.Some? && v.refSelector.value.kind != "all" {
          PathIsNotTyped(Index(Module(m.localName), InstanceIndex(lib, scope, m, v.refSelector.value.expr.value)), path);
        }
      }
    }
  }

  lemma {:induction false} PathIsNotTyped(e: Expression, path: seq<string>)
    requires !e.Typed?
    ensures !WithPath(e, path).Typed?
    decreases |path|
  {
    if path != [] {
      PathIsNotTyped(e, path[..|path| - 1]);
    }
  }

  /** The emitted count has the value that the canvas gives it, whatever the values of the nodes and of typed text. */
  ghost predicate CountKeepsMeaning(lib: Library, scope: Scope, m: Multiplicity)
    requires MultiplicityClean(lib, scope, m) && m.kind == "count"
  {
    forall world, env :: Covers(world, scope) && ReadsConditionals(lib, world.typed) && Represents(lib, env, world, scope) ==>
      Evaluate(env, CountOf(lib, scope, m).value) == CountDenotes(scope, world, m)
  }

  /** A count keeps its meaning exactly when ` ? 1 : 0` is not written after text that is itself a conditional or does not stand alone. */
  lemma {:induction false} CountKeptIff(lib: Library, scope: Scope, m: Multiplicity)
    requires MultiplicityClean(lib, scope, m) && m.kind == "count" && DistinctNames(scope) && Direct(lib, scope, m.expr.value)
    ensures CountKeepsMeaning(lib, scope, m) <==> !SuffixBinds(lib, m)
  {
    hide Covers, Represents, ReadsConditionals, CountDenotes, Evaluate, Direct, DistinctNames, MultiplicityClean, SuffixBinds, CountOf;
    if SuffixBinds(lib, m) {
      SuffixLosesMeaning(lib, scope, m);
    } else {
      assert CountIsDirect(lib, scope, m);
      CountIsThere(lib, scope, m);
      forall world, env | Covers(world, scope) && ReadsConditionals(lib, world.typed) && Represents(lib, env, world, scope)
        ensures Evaluate(env, CountOf(lib, scope, m).value) == CountDenotes(scope, world, m)
      {
        RepetitionMeans(lib, scope, world, env, m);
      }
    }
  }

  lemma {:induction false} CountIsThere(lib: Library, scope: Scope, m: Multiplicity)
    requires MultiplicityClean(lib, scope, m) && m.kind == "count"
    ensures CountOf(lib, scope, m).Some? && m.expr.Some?
  {
  }

  /** Where every text is true, the text and `c ? x : (y ? 1 : 0)` are true, and not the number 1. */
  lemma {:induction false} SuffixLosesMeaning(lib: Library, scope: Scope, m: Multiplicity)
    requires MultiplicityClean(lib, scope, m) && m.kind == "count" && DistinctNames(scope) && SuffixBinds(lib, m)
    ensures !CountKeepsMeaning(lib, scope, m)
  {
    hide DistinctNames, Represents, WithSuffix;
    var world := TrueWorld(scope);
    TrueCovers(scope);
    var env := NamedView(lib, scope, world);
    assert ReadsConditionals(lib, world.typed);
    assert CountDenotes(scope, world, m) == Number(1);
    SameTexts(lib, env, world, scope);
    EverythingTrue(lib, scope, env, m);
  }

  lemma {:induction false} SameTexts(lib: Library, env: Env, world: World, scope: Scope)
    requires Covers(world, scope) && Represents(lib, env, world, scope)
    ensures env.typed == world.typed
  {
  }

  ghost function TrueWorld(scope: Scope): World {
    World(
      map id | id in scope.variables :: Unknown,
      map id | id in scope.modules :: SampleInstances(scope.modules[id].multiplicity.kind, false),
      t => Truth(true), t => Unknown)
  }

  lemma {:induction false} TrueCovers(scope: Scope)
    ensures Covers(TrueWorld(scope), scope)
  {
  }

  lemma {:induction false} EverythingTrue(lib: Library, scope: Scope, env: Env, m: Multiplicity)
    requires MultiplicityClean(lib, scope, m) && m.kind == "count" && SuffixBinds(lib, m)
    requires forall t :: env.typed(t) == Truth(true)
    ensures CountOf(lib, scope, m).Some? && Evaluate(env, CountOf(lib, scope, m).value) == Truth(true)
  {
    var text := m.expr.value.literal;
    assert CountOf(lib, scope, m) == Some(WithSuffix(lib, Typed(text)));
    if lib.standsAlone(text) {
      var c := lib.conditional(text).value;
      assert WithSuffix(lib, Typed(text)) == Choice(Typed(c.condition), Typed(c.yes), WithSuffix(lib, Typed(c.no)));
    }
  }

  /**
    A build without diagnostics preserves meaning. Emitted text knows nodes only by name; for every
    assignment of values to the nodes of the canvas, names stand for nodes without ambiguity, and read
    by name every module input, count, `for_each` and provider argument has the value that the canvas
    gives it by node, unless a reference in it selects from an output of all counted instances, or its
    text takes the suffix of a count for its own. `MeaningKeptIff` and `CountKeptIff` show that in those
    cases it does not.
   */
  lemma {:induction false} CleanBuildPreservesMeaning(lib: Library, request: Request, documents: Documents, host: string, model: RenderModel, world: World)
    requires Clean(lib, request, documents) && Compiles(lib, request, documents, host, model)
    requires Covers(world, ScopeOf(request))
    ensures exists env :: Represents(lib, env, world, ScopeOf(request))
    ensures forall env :: Represents(lib, env, world, ScopeOf(request)) ==> ModelMeans(lib, request, documents, model, world, env)
  {
    hide Represents, Covers, ModelMeans, DistinctNames;
    CleanNamesIdentify(lib, request, documents);
    var view := NamedView(lib, ScopeOf(request), world);
    forall env | Represents(lib, env, world, ScopeOf(request)) ensures ModelMeans(lib, request, documents, model, world, env) {
      CleanModelMeans(lib, request, documents, host, model, world, env);
    }
  }

  ghost predicate ModelMeans(lib: Library, request: Request, documents: Documents, model: RenderModel, world: World, env: Env)
    requires Covers(world, ScopeOf(request))
  {
    var scope := ScopeOf(request);
    && |model.modules| == |request.modules| && |model.providers| == |request.providers|
    && (forall i :: 0 <= i < |request.modules| ==>
        && request.modules[i].nodeID in documents.modules
        && ModuleMeans(lib, scope, documents.modules[request.modules[i].nodeID], world, env, request.modules[i], model.modules[i]))
    && (forall i :: 0 <= i < |request.providers| ==>
        && request.providers[i].nodeID in documents.providers
        && ConfigurationMeans(lib, scope, world, env, request.providers[i].configuration,
             documents.providers[request.providers[i].nodeID].configuration, model.providers[i].configuration))
  }

  lemma {:induction false} CleanModelMeans(lib: Library, request: Request, documents: Documents, host: string, model: RenderModel, world: World, env: Env)
    requires Clean(lib, request, documents) && Compiles(lib, request, documents, host, model)
    requires Covers(world, ScopeOf(request)) && Represents(lib, env, world, ScopeOf(request))
    ensures ModelMeans(lib, request, documents, model, world, env)
  {
    hide Represents, Covers, VariablesClean, ModuleNamesClean, ProviderNamesClean, ModuleMeans, ConfigurationMeans, ModuleClean, CompiledModule,
      ConfigurationConforms, RenderedBlock, ScopeOf, RendersVariables, SanitizeVersion, Agree;
    var scope, nodes := ScopeOf(request), Table(request.providers, ProviderID);
    forall i | 0 <= i < |request.modules|
      ensures request.modules[i].nodeID in documents.modules
      ensures ModuleMeans(lib, scope, documents.modules[request.modules[i].nodeID], world, env, request.modules[i], model.modules[i])
    {
      assert request.modules[i] in request.modules;
      CompiledModuleMeans(lib, scope, world, env, nodes, documents, request.modules[i]);
    }
    forall i | 0 <= i < |request.providers|
      ensures request.providers[i].nodeID in documents.providers
      ensures ConfigurationMeans(lib, scope, world, env, request.providers[i].configuration,
        documents.providers[request.providers[i].nodeID].configuration, model.providers[i].configuration)
    {
      var p := request.providers[i];
      assert p in request.providers && ProviderClean(lib, scope, documents, p);
      RenderedConfigurationMeans(lib, scope, world, env, p.configuration, documents.providers[p.nodeID].configuration);
    }
  }
}
