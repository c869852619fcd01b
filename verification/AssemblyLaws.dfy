/**
  What a build without diagnostics guarantees of the root module: it is closed, keeps the names of its
  nodes apart, serves every provider binding, and carries the identity and version that were requested.
 */
module AssemblyLaws {
  import opened Strings
  import opened Sorting
  import opened AssemblyTypes
  import opened References
  import opened ModuleInputs
  import opened ProviderConfig
  import opened AssemblyBuild
  import ProviderSchema

  // ------------------------------------------------------------------ closure

  ghost function EmittedNames(model: RenderModel): set<Name> {
    (set v | v in model.variables :: VariableName(v.name)) + (set m | m in model.modules :: ModuleName(m.localName))
  }

  /** Every node of the request is emitted, under its own name. */
  ghost predicate EveryNodeEmitted(request: Request, model: RenderModel) {
    && |model.variables| == |request.variables|
    && |model.modules| == |request.modules|
    && |model.providers| == |request.providers|
    && (forall i :: 0 <= i < |request.variables| ==> model.variables[i].name == request.variables[i].name)
    && (forall i :: 0 <= i < |request.modules| ==> model.modules[i].localName == request.modules[i].localName)
    && (forall i :: 0 <= i < |request.providers| ==>
        model.providers[i].localName == request.providers[i].localName && model.providers[i].alias == request.providers[i].alias)
  }

  /** No two blocks of the root module collide. */
  ghost predicate NamesDistinct(model: RenderModel) {
    && (forall i, j :: 0 <= i < j < |model.variables| ==> model.variables[i].name != model.variables[j].name)
    && (forall i, j :: 0 <= i < j < |model.modules| ==> model.modules[i].localName != model.modules[j].localName)
    && (forall i, j :: 0 <= i < j < |model.providers| ==>
        model.providers[i].localName != model.providers[j].localName || model.providers[i].alias != model.providers[j].alias)
  }

  ghost predicate ExpressionsClosed(names: set<Name>, m: RenderModule) {
    && (forall n :: n in m.inputs ==> Mentions(m.inputs[n]) <= names)
    && (m.count.Some? ==> Mentions(m.count.value) <= names)
    && (m.forEach.Some? ==> Mentions(m.forEach.value) <= names)
  }

  ghost predicate BlockClosed(names: set<Name>, r: RenderBlock)
    decreases r
  {
    && (forall n :: n in r.arguments ==> Mentions(r.arguments[n]) <= names)
    && (forall n :: n in r.blocks ==> forall i :: 0 <= i < |RenderedNamed(r, n)| ==> BlockClosed(names, RenderedNamed(r, n)[i]))
  }

  /** The provider block that a binding selects is emitted and has the identity the module requires. */
  ghost predicate BindingServed(model: RenderModel, r: ProviderReference, identity: string) {
    exists p :: p in model.providers && p.localName == r.localName && p.alias == r.alias
      && p.providerNamespace + "/" + p.providerName == identity
  }

  /** Everything the node asks for is there: its inputs, all required ones among them, and its bindings. */
  ghost predicate NodeServed(documents: Documents, node: ModuleNode, m: RenderModule, model: RenderModel) {
    && node.nodeID in documents.modules
    && var contract := documents.modules[node.nodeID];
    && m.inputs.Keys == node.values.Keys
    && (forall v :: v in contract.variables && v.required ==> v.name in m.inputs)
    && m.providerBindings.Keys == node.providerBindings.Keys
    && (forall child :: child in m.providerBindings ==>
        child in Required(contract) && BindingServed(model, m.providerBindings[child], NormalizeProviderIdentity(Required(contract)[child].source)))
  }

  lemma {:induction false} RendersSameNames(lib: Library, request: Request, documents: Documents, host: string, model: RenderModel)
    requires Clean(lib, request, documents) && Compiles(lib, request, documents, host, model)
    ensures EveryNodeEmitted(request, model)
  {
    hide ProvidersClean, ModulesClean, VariableClean, RenderedBlock, CompiledInputs, CompiledBindings, CountOf, ForEachOf, TypePrinter.TypeText,
      ValuePrinter.ValueText;
    assert |model.variables| == |request.variables|;
  }

  lemma {:induction false} CleanKeysDistinct(lib: Library, request: Request, documents: Documents)
    requires Clean(lib, request, documents)
    ensures DistinctKeys(request.variables, NameOfVariable)
    ensures DistinctKeys(request.modules, NameOfModule)
    ensures DistinctKeys(request.providers, ConfigurationKey)
  {
    hide ProvidersClean, ModulesClean, VariableClean, DistinctKeys, ProviderNameClean;
  }

  lemma {:induction false} CleanNamesDistinct(lib: Library, request: Request, documents: Documents, host: string, model: RenderModel)
    requires Clean(lib, request, documents) && EveryNodeEmitted(request, model)
    ensures NamesDistinct(model)
  {
    hide Clean;
    CleanKeysDistinct(lib, request, documents);
    forall i, j | 0 <= i < j < |model.variables| ensures model.variables[i].name != model.variables[j].name {
      assert NameOfVariable(request.variables[i]) != NameOfVariable(request.variables[j]);
    }
    forall i, j | 0 <= i < j < |model.modules| ensures model.modules[i].localName != model.modules[j].localName {
      assert NameOfModule(request.modules[i]) != NameOfModule(request.modules[j]);
    }
    forall i, j | 0 <= i < j < |model.providers|
      ensures model.providers[i].localName != model.providers[j].localName || model.providers[i].alias != model.providers[j].alias
    {
      assert ConfigurationKey(request.providers[i]) != ConfigurationKey(request.providers[j]);
    }
  }

  lemma {:induction false} ScopeIsEmitted(request: Request, model: RenderModel)
    requires EveryNodeEmitted(request, model)
    ensures NamesIn(ScopeOf(request)) <= EmittedNames(model)
  {
    var scope := ScopeOf(request);
    forall n | n in VariableNames(scope) ensures VariableName(n) in EmittedNames(model) {
      var id :| id in scope.variables && scope.variables[id].name == n;
      var i :| 0 <= i < |request.variables| && request.variables[i] == scope.variables[id];
      assert model.variables[i] in model.variables;
    }
    forall n | n in ModuleNames(scope) ensures ModuleName(n) in EmittedNames(model) {
      var id :| id in scope.modules && scope.modules[id].localName == n;
      var i :| 0 <= i < |request.modules| && request.modules[i] == scope.modules[id];
      assert model.modules[i] in model.modules;
    }
  }

  lemma {:induction false} CompiledModuleClosed(lib: Library, scope: Scope, nodes: map<string, ProviderNode>, documents: Documents, m: ModuleNode)
    requires m.nodeID in documents.modules
    ensures ExpressionsClosed(NamesIn(scope), CompiledModule(lib, scope, nodes, documents, m))
  {
    hide CompiledBindings, SanitizeVersion, InputText, ResolveFieldValue;
    var contract, c := documents.modules[m.nodeID], CompiledModule(lib, scope, nodes, documents, m);
    forall n | n in c.inputs ensures Mentions(c.inputs[n]) <= NamesIn(scope) {
      InputIsClosed(lib, scope, m.values[n], Declared(contract)[n].t);
    }
    if c.count.Some? {
      ResolvedIsClosed(lib, scope, m.multiplicity.expr.value);
      SuffixMentions(lib, ResolveFieldValue(lib, scope, m.multiplicity.expr.value).value);
    }
    if c.forEach.Some? {
      assert scope.variables[m.multiplicity.variableNodeID.value].name in VariableNames(scope);
    }
  }

  lemma {:induction false} WiderScope(small: set<Name>, large: set<Name>, r: RenderBlock)
    requires small <= large && BlockClosed(small, r)
    ensures BlockClosed(large, r)
    decreases r
  {
    forall n, i | n in r.blocks && 0 <= i < |RenderedNamed(r, n)| ensures BlockClosed(large, RenderedNamed(r, n)[i]) {
      WiderScope(small, large, RenderedNamed(r, n)[i]);
    }
  }

  lemma {:induction false} BindingIsServed(lib: Library, request: Request, documents: Documents, model: RenderModel, node: ModuleNode, child: string)
    requires RendersProviders(lib, ScopeOf(request), documents, request.providers, model.providers)
    requires node.nodeID in documents.modules && child in node.providerBindings
    requires BindingClean(documents, Table(request.providers, ProviderID), documents.modules[node.nodeID], node, child)
    ensures var contract, p := documents.modules[node.nodeID], Table(request.providers, ProviderID)[node.providerBindings[child]];
      BindingServed(model, ProviderReference(p.localName, p.alias), NormalizeProviderIdentity(Required(contract)[child].source))
  {
    hide NormalizeProviderIdentity, RenderedBlock, Required;
    var p := Table(request.providers, ProviderID)[node.providerBindings[child]];
    var j :| 0 <= j < |request.providers| && request.providers[j] == p;
    assert model.providers[j] == CompiledProvider(lib, ScopeOf(request), documents, p);
    assert model.providers[j] in model.providers;
  }

  lemma {:induction false} ModuleServed(lib: Library, request: Request, documents: Documents, model: RenderModel, node: ModuleNode)
    requires RendersProviders(lib, ScopeOf(request), documents, request.providers, model.providers)
    requires ModuleClean(lib, ScopeOf(request), Table(request.providers, ProviderID), documents, node)
    ensures NodeServed(documents, node, CompiledModule(lib, ScopeOf(request), Table(request.providers, ProviderID), documents, node), model)
  {
    hide InputText, NormalizeProviderIdentity, MultiplicityClean, RendersProviders, BindingClean, BindingServed, SanitizeVersion, CountOf, ForEachOf,
      InputValueProvided, ScopeOf, Table;
    var nodes := Table(request.providers, ProviderID);
    var contract, m := documents.modules[node.nodeID], CompiledModule(lib, ScopeOf(request), nodes, documents, node);
    forall n | n in node.values ensures n in m.inputs {
      assert InputClean(lib, ScopeOf(request), contract, node, n);
    }
    forall v | v in contract.variables && v.required ensures v.name in m.inputs {
      assert RequiredInputGiven(node, v);
    }
    forall child | child in node.providerBindings
      ensures child in m.providerBindings && child in Required(contract)
      ensures BindingServed(model, m.providerBindings[child], NormalizeProviderIdentity(Required(contract)[child].source))
    {
      BoundNode(documents, nodes, contract, node, child);
      BindingIsServed(lib, request, documents, model, node, child);
    }
  }

  lemma {:induction false} BoundNode(documents: Documents, nodes: map<string, ProviderNode>, contract: Contract, node: ModuleNode, child: string)
    requires child in node.providerBindings && BindingClean(documents, nodes, contract, node, child)
    ensures child in Required(contract) && node.providerBindings[child] in nodes
  {
  }

  /**
    A build without diagnostics is closed: every node is emitted, no names collide, every expression
    names only emitted variables and modules, and every binding is served by an emitted provider block.
   */
  lemma {:induction false} CleanBuildIsClosed(lib: Library, request: Request, documents: Documents, host: string, model: RenderModel)
    requires Clean(lib, request, documents) && Compiles(lib, request, documents, host, model)
    ensures EveryNodeEmitted(request, model) && NamesDistinct(model)
    ensures forall m :: m in model.modules ==> ExpressionsClosed(EmittedNames(model), m)
    ensures forall p :: p in model.providers ==> BlockClosed(EmittedNames(model), p.configuration)
    ensures forall i :: 0 <= i < |request.modules| ==> NodeServed(documents, request.modules[i], model.modules[i], model)
  {
    hide NamesIn, EmittedNames, ModuleClean, VariablesClean, ProvidersClean, ModuleNamesClean, ProviderNamesClean, NodeServed, NamesDistinct,
      CompiledModule, RenderedBlock, RendersVariables;
    RendersSameNames(lib, request, documents, host, model);
    CleanNamesDistinct(lib, request, documents, host, model);
    ScopeIsEmitted(request, model);
    var scope, names := ScopeOf(request), EmittedNames(model);
    forall i | 0 <= i < |request.modules|
      ensures ExpressionsClosed(names, model.modules[i]) && NodeServed(documents, request.modules[i], model.modules[i], model)
    {
      CompiledModuleClosed(lib, scope, Table(request.providers, ProviderID), documents, request.modules[i]);
      assert request.modules[i] in request.modules;
      ModuleServed(lib, request, documents, model, request.modules[i]);
    }
    forall i | 0 <= i < |request.providers| ensures BlockClosed(names, model.providers[i].configuration) {
      var p := request.providers[i];
      ConfigurationClosed(lib, scope, p.configuration, documents.providers[p.nodeID].configuration);
      WiderScope(NamesIn(scope), names, model.providers[i].configuration);
    }
  }

  /** A rendered configuration names only nodes of the request, at every depth. */
  lemma {:induction false} ConfigurationClosed(lib: Library, scope: Scope, c: Configuration, schema: ProviderSchema.Block)
    ensures BlockClosed(NamesIn(scope), RenderedBlock(lib, scope, c, schema))
    decreases c
  {
    hide NamesIn, ArgumentText;
    var r := RenderedBlock(lib, scope, c, schema);
    forall n | n in r.arguments ensures Mentions(r.arguments[n]) <= NamesIn(scope) {
      ArgumentIsClosed(lib, scope, c.arguments[n], schema.attributes[n]);
    }
    forall n, i | n in r.blocks && 0 <= i < |RenderedNamed(r, n)| ensures BlockClosed(NamesIn(scope), RenderedNamed(r, n)[i]) {
      assert RenderedNamed(r, n) == RenderedBlocks(lib, scope, c, schema, n);
      ConfigurationClosed(lib, scope, BlocksNamed(c, n)[i], schema.blocks[n].block);
    }
  }

  // ------------------------------------------------------------------ identity

  /** What is emitted under a node's name is the very module or provider, and version, that the node asks for. */
  lemma {:induction false} CleanBuildKeepsIdentity(lib: Library, request: Request, documents: Documents, host: string, model: RenderModel)
    requires Clean(lib, request, documents) && Compiles(lib, request, documents, host, model)
    ensures |model.modules| == |request.modules| && |model.providers| == |request.providers|
    ensures forall i :: 0 <= i < |request.modules| ==> ModuleIdentity(request.modules[i], model.modules[i])
    ensures forall i :: 0 <= i < |request.providers| ==> ProviderIdentity(request.providers[i], model.providers[i])
  {
    hide VariablesClean, ModuleNamesClean, ProviderNamesClean, RendersVariables, SanitizeVersion, RenderedBlock, ConfigurationConforms,
      CompiledInputs, CompiledBindings, CountOf, ForEachOf, MultiplicityClean, InputClean, BindingClean, RequiredInputGiven, AllAgree, ScopeOf, Table;
    forall i | 0 <= i < |request.modules| ensures ModuleIdentity(request.modules[i], model.modules[i]) {
      assert request.modules[i] in request.modules;
    }
    forall i | 0 <= i < |request.providers| ensures ProviderIdentity(request.providers[i], model.providers[i]) {
      assert request.providers[i] in request.providers;
    }
  }

  ghost predicate ModuleIdentity(node: ModuleNode, m: RenderModule) {
    m.namespace == node.namespace && m.name == node.name && m.version == SanitizeVersion(node.version)
  }

  ghost predicate ProviderIdentity(node: ProviderNode, p: RenderProvider) {
    p.namespace == node.namespace && p.name == node.name && p.version == SanitizeVersion(node.version)
  }

  // ------------------------------------------------------------------ provider configurations and their keys

  /** Identifiers contain no colon. */
  ghost predicate ColonFree(lib: Library) {
    forall s :: lib.validIdentifier(s) ==> ':' !in s
  }

  lemma {:induction false} SplitOnce(a: string, x: string, b: string, y: string, c: char)
    requires c !in a && c !in b && a + [c] + x == b + [c] + y
    ensures a == b && x == y
    decreases |a|
  {
    var s := a + [c] + x;
    assert s[0] == (if a == "" then c else a[0]);
    assert s[0] == (if b == "" then c else b[0]);
    if a == "" {
      assert s[1..] == x && s[1..] == y;
    } else {
      assert s[1..] == a[1..] + [c] + x && s[1..] == b[1..] + [c] + y;
      SplitOnce(a[1..], x, b[1..], y, c);
      assert a == [a[0]] + a[1..] && b == [b[0]] + b[1..];
    }
  }

  /** Comparing the joined key accepts exactly the requests whose (local name, alias) pairs are distinct. */
  lemma {:induction false} ConfigurationsDistinctIff(lib: Library, ps: seq<ProviderNode>)
    requires ColonFree(lib) && forall p :: p in ps ==> ProviderNameClean(lib, p)
    ensures DistinctKeys(ps, ConfigurationKey) <==>
      forall i, j :: 0 <= i < j < |ps| ==> ps[i].localName != ps[j].localName || ps[i].alias != ps[j].alias
  {
    forall i, j | 0 <= i < j < |ps|
      ensures ConfigurationKey(ps[i]) == ConfigurationKey(ps[j]) <==> ps[i].localName == ps[j].localName && ps[i].alias == ps[j].alias
    {
      assert ps[i] in ps && ps[j] in ps;
      if ConfigurationKey(ps[i]) == ConfigurationKey(ps[j]) {
        assert ps[i].localName + [':'] + ps[i].alias == ps[j].localName + [':'] + ps[j].alias;
        SplitOnce(ps[i].localName, ps[i].alias, ps[j].localName, ps[j].alias, ':');
      }
    }
  }
}
