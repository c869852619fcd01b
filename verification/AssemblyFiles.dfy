/**
  From the request to the files: what the block of every variable and module says, in terms of the
  nodes of the canvas.
 */
module AssemblyFiles {
  import opened Basics
  import opened Strings
  import opened Sorting
  import opened AssemblyTypes
  import opened References
  import opened AssemblyBuild
  import opened AssemblyRender
  import opened AssemblyOutput
  import HclTokens
  import ProviderConfig
  import ProviderSchema
  import TypePrinter
  import ValuePrinter
  import ValueMeaning

  // ------------------------------------------------------------------ variables

  function BlocksIn(body: seq<Item>): seq<Item> {
    if body == [] then [] else IfBlock(body[0]) + BlocksIn(body[1..])
  }

  function IfBlock(item: Item): seq<Item> {
    if item.Block? then [item] else []
  }

  lemma {:induction false} BlocksInParts(a: seq<Item>, b: seq<Item>)
    ensures BlocksIn(a + b) == BlocksIn(a) + BlocksIn(b)
    decreases |a|
  {
    if a == [] {
      assert a + b == b;
    } else {
      hide IfBlock;
      var rest := a[1..];
      assert (a + b)[1..] == rest + b;
      BlocksInParts(rest, b);
      assert BlocksIn(a + b) == IfBlock(a[0]) + (BlocksIn(rest) + BlocksIn(b));
    }
  }

  lemma {:induction false} OnlySettings(body: seq<Item>)
    requires forall i :: 0 <= i < |body| ==> body[i].Setting?
    ensures BlocksIn(body) == []
    decreases |body|
  {
    if body != [] {
      OnlySettings(body[1..]);
    }
  }

  lemma {:induction false} EveryBlock(body: seq<Item>)
    requires forall i :: 0 <= i < |body| ==> body[i].Block?
    ensures BlocksIn(body) == body
    decreases |body|
  {
    if body != [] {
      EveryBlock(body[1..]);
      assert body == [body[0]] + body[1..];
    }
  }

  /** The text of the setting reads as itself and says the type, up to attribute order. */
  ghost predicate TypeWritten(lib: Library, t: TypeSpec, code: Option<Code>) {
    && code.Some? && code.value.Syntax?
    && HclTokens.ReadExpr(lib, HclTokens.Print(code.value.a)) == Some(code.value.a)
    && ValueMeaning.TypeSays(lib, t, code.value.a)
  }

  /** The text of the setting reads as itself and denotes the value. */
  ghost predicate DefaultWritten(lib: Library, t: TypeSpec, value: ValueSpec, code: Option<Code>) {
    && code.Some? && code.value.Syntax?
    && HclTokens.ReadExpr(lib, HclTokens.Print(code.value.a)) == Some(code.value.a)
    && ValueMeaning.TextMeans(lib, t, value, code.value.a)
  }

  /** A validation block with the trimmed condition and message. */
  ghost predicate ValidationWritten(v: Validation, b: Item) {
    && b.Block? && b.kind == "validation"
    && ValueIn(b.body, "condition") == Some(Source(TrimSpace(v.condition)))
    && ValueIn(b.body, "error_message") == Some(StringCode(TrimSpace(v.errorMessage)))
  }

  /** The block is that of the variable: its name, type, default, description and validations. */
  ghost predicate VariableWritten(lib: Library, v: VariableNode, b: Item) {
    && b.Block? && b.kind == "variable" && b.labels == [v.name]
    && TypeWritten(lib, v.t, ValueIn(b.body, "type"))
    && (if v.hasDefault then DefaultWritten(lib, v.t, v.default, ValueIn(b.body, "default")) else ValueIn(b.body, "default").None?)
    && ValueIn(b.body, "description") == (if v.description == "" then None else Some(StringCode(v.description)))
    && |BlocksIn(b.body)| == |v.validations|
    && forall i :: 0 <= i < |v.validations| ==> ValidationWritten(v.validations[i], BlocksIn(b.body)[i])
  }

  lemma {:induction false} TypeIsWritten(lib: Library, v: VariableNode)
    requires VariableClean(lib, v) && VariableReads(lib, CompiledVariable(lib, v))
    ensures TypeWritten(lib, v.t, Some(Syntax(CompiledVariable(lib, v).t)))
  {
    hide HclTokens.Print, HclTokens.ReadExpr, TypePrinter.TypeText, ValuePrinter.ValueText, TypePrinter.Denotes, TypePrinter.NoDefaults,
      TypePrinter.TypeMisread, ValueMeaning.TypeSays, TrimLeft, TrimRight;
    TypePrinter.TypeRoundTrip(lib, v.t);
    ValueMeaning.TypeIsSaid(lib, v.t);
  }

  lemma {:induction false} DefaultIsWritten(lib: Library, v: VariableNode)
    requires VariableClean(lib, v) && VariableReads(lib, CompiledVariable(lib, v)) && v.hasDefault
    ensures DefaultWritten(lib, v.t, v.default, Some(Syntax(CompiledVariable(lib, v).default.value)))
  {
    hide HclTokens.Print, HclTokens.ReadExpr, HclTokens.Readable, TypePrinter.TypeText, ValuePrinter.ValueText, ValueMeaning.TextMeans, TrimLeft, TrimRight;
    HclTokens.ReadPrinted(lib, ValuePrinter.ValueText(lib, v.t, v.default).value);
    ValueMeaning.ValueDenotes(lib, v.t, v.default);
  }

  /** The settings of a variable block, in whichever order. */
  lemma {:induction false} VariableSettings(lib: Library, v: RenderVariable)
    ensures var body := VariableBlock(lib, v).body;
      && ValueIn(body, "type") == Some(Syntax(v.t))
      && ValueIn(body, "default") == (if v.default.Some? then Some(Syntax(v.default.value)) else None)
      && ValueIn(body, "description") == (if v.description == "" then None else Some(StringCode(v.description)))
      && BlocksIn(body) == ValidationBlocks(v.validations)
  {
    hide VariableBlock, ValueIn, BlocksIn;
    VariableSetting(lib, v, "type");
    VariableSetting(lib, v, "default");
    VariableSetting(lib, v, "description");
    VariableBlocksIn(lib, v);
  }

  function SettingsOf(lib: Library, v: RenderVariable): seq<Item> {
    var t, d, s := [Setting("type", Syntax(v.t))], DefaultItem(v), DescriptionItem(v);
    if IsComplexVariableType(lib, v.t) then d + s + t else t + d + s
  }

  lemma {:induction false} VariableBlocksIn(lib: Library, v: RenderVariable)
    ensures BlocksIn(VariableBlock(lib, v).body) == ValidationBlocks(v.validations)
  {
    hide IsComplexVariableType, ValidationBlocks, BlocksIn;
    BlocksInParts(SettingsOf(lib, v), ValidationBlocks(v.validations));
    OnlySettings(SettingsOf(lib, v));
    BlocksOnly(v.validations);
    EveryBlock(ValidationBlocks(v.validations));
  }

  lemma {:induction false} VariableSetting(lib: Library, v: RenderVariable, n: string)
    ensures ValueIn(VariableBlock(lib, v).body, n) ==
      if n == "type" then Some(Syntax(v.t))
      else if n == "default" && v.default.Some? then Some(Syntax(v.default.value))
      else if n == "description" && v.description != "" then Some(StringCode(v.description))
      else None
  {
    hide IsComplexVariableType, ValidationBlocks, ValueIn, DefaultItem, DescriptionItem;
    var t, d, s, blocks := [Setting("type", Syntax(v.t))], DefaultItem(v), DescriptionItem(v), ValidationBlocks(v.validations);
    BlocksOnly(v.validations);
    AbsentValue(blocks, n);
    ValueInParts(SettingsOf(lib, v), blocks, n);
    ValueInParts(d + s, t, n);
    ValueInParts(t + d, s, n);
    ValueInParts(d, s, n);
    ValueInParts(t, d, n);
    OwnSettings(v, n);
  }

  lemma {:induction false} OwnSettings(v: RenderVariable, n: string)
    ensures ValueIn([Setting("type", Syntax(v.t))], n) == if n == "type" then Some(Syntax(v.t)) else None
    ensures ValueIn(DefaultItem(v), n) == if n == "default" && v.default.Some? then Some(Syntax(v.default.value)) else None
    ensures ValueIn(DescriptionItem(v), n) == if n == "description" && v.description != "" then Some(StringCode(v.description)) else None
  {
  }

  lemma {:induction false} BlocksOnly(vs: seq<Validation>)
    ensures forall i :: 0 <= i < |ValidationBlocks(vs)| ==> ValidationBlocks(vs)[i].Block?
  {
  }

  lemma {:induction false} ValidationIsWritten(v: Validation)
    ensures ValidationWritten(v, ValidationBlock(TrimmedValidation(v)))
  {
    hide TrimLeft, TrimRight;
    var b := ValidationBlock(TrimmedValidation(v)).body;
    assert b[1..] == [Setting("error_message", StringCode(TrimSpace(v.errorMessage)))];
    assert ValueIn(b[1..], "error_message") == Some(StringCode(TrimSpace(v.errorMessage)));
    assert "condition" != "error_message";
  }

  lemma {:induction false} VariableIsWritten(lib: Library, v: VariableNode)
    requires VariableClean(lib, v) && VariableReads(lib, CompiledVariable(lib, v))
    ensures VariableWritten(lib, v, VariableBlock(lib, CompiledVariable(lib, v)))
  {
    var r := CompiledVariable(lib, v);
    hide VariableClean, VariableReads, TypeWritten, DefaultWritten, ValueIn, ValidationWritten, TrimSpace, IsComplexVariableType, BlocksIn, ValidationBlock;
    VariableSettings(lib, r);
    TypeIsWritten(lib, v);
    if v.hasDefault {
      DefaultGiven(lib, v);
      DefaultIsWritten(lib, v);
    }
    forall i | 0 <= i < |v.validations| ensures ValidationWritten(v.validations[i], ValidationBlocks(r.validations)[i]) {
      ValidationIsWritten(v.validations[i]);
    }
  }

  lemma {:induction false} DefaultGiven(lib: Library, v: VariableNode)
    requires VariableClean(lib, v) && v.hasDefault
    ensures CompiledVariable(lib, v).default.Some?
  {
  }

  // ------------------------------------------------------------------ modules

  /** The block of a module names the module in the registry and its version, unless an input takes their place. */
  ghost predicate ModuleWritten(host: string, nodes: map<string, ProviderNode>, documents: Documents, m: ModuleNode, b: Item)
    requires m.nodeID in documents.modules
  {
    && b.Block? && b.kind == "module" && b.labels == [m.localName]
    && ("source" !in m.values ==>
         ValueIn(b.body, "source") == Some(StringCode(host + "/" + m.namespace + "/" + m.name + "/" + documents.modules[m.nodeID].system)))
    && ("version" !in m.values ==> ValueIn(b.body, "version") == Some(StringCode("~> " + SanitizeVersion(SanitizeVersion(m.version)))))
    && (forall n :: n in m.values && (n == "providers" ==> m.providerBindings == map[]) ==>
         ValueIn(b.body, n).Some? && ValueIn(b.body, n).value.Reference?)
    && (m.providerBindings != map[] ==> BindingsWritten(nodes, m, ValueIn(b.body, "providers")))
  }

  /** Every child provider is bound to the block of the provider node that the canvas binds it to. */
  ghost predicate BindingsWritten(nodes: map<string, ProviderNode>, m: ModuleNode, code: Option<Code>) {
    && code.Some? && code.value.Bindings?
    && (forall i :: 0 <= i < |code.value.each| ==> IsBinding(nodes, m, code.value.each[i]))
    && forall child :: child in m.providerBindings ==> exists i :: 0 <= i < |code.value.each| && code.value.each[i].child == child
  }

  ghost predicate IsBinding(nodes: map<string, ProviderNode>, m: ModuleNode, b: Binding) {
    && b.child in m.providerBindings && m.providerBindings[b.child] in nodes
    && b.to.localName == nodes[m.providerBindings[b.child]].localName && b.to.alias == nodes[m.providerBindings[b.child]].alias
  }

  lemma {:induction false} ModuleIsWritten(lib: Library, scope: Scope, nodes: map<string, ProviderNode>, documents: Documents, host: string, m: ModuleNode)
    requires ModuleClean(lib, scope, nodes, documents, m)
    ensures ModuleWritten(host, nodes, documents, m, ModuleBlock(host, CompiledModule(lib, scope, nodes, documents, m)))
  {
    var c := CompiledModule(lib, scope, nodes, documents, m);
    hide ModuleClean, CompiledModule, ModuleBody, SanitizeVersion;
    CleanHasDocument(lib, scope, nodes, documents, m);
    InputsKept(lib, scope, nodes, documents, m);
    BlockSays(host, nodes, documents, m, c);
  }

  /** What a module has in its model is what the node asks for and the contract adds. */
  ghost predicate Carries(nodes: map<string, ProviderNode>, documents: Documents, m: ModuleNode, c: RenderModule) {
    && m.nodeID in documents.modules
    && c.inputs.Keys == m.values.Keys && c.providerBindings.Keys == m.providerBindings.Keys
    && c.namespace == m.namespace && c.name == m.name && c.system == documents.modules[m.nodeID].system
    && c.version == SanitizeVersion(m.version) && c.localName == m.localName
    && forall child :: child in m.providerBindings ==> IsBinding(nodes, m, Binding(child, c.providerBindings[child]))
  }

  lemma {:induction false} BlockSays(host: string, nodes: map<string, ProviderNode>, documents: Documents, m: ModuleNode, c: RenderModule)
    requires Carries(nodes, documents, m, c)
    ensures ModuleWritten(host, nodes, documents, m, ModuleBlock(host, c))
  {
    hide ModuleBody, ValueIn, SanitizeVersion, ModuleSource;
    SourceText(host, c);
    IdentityKeptIff(host, c);
    BindingsKept(m, c);
    if m.providerBindings != map[] {
      BindingsAreWritten(host, nodes, m, c);
    }
    forall n | n in m.values && (n == "providers" ==> m.providerBindings == map[])
      ensures ValueIn(ModuleBody(host, c), n) == Some(Reference(c.inputs[n]))
    {
      InputIsSet(host, c, n);
    }
  }

  lemma {:induction false} InputIsSet(host: string, c: RenderModule, n: string)
    requires n in c.inputs && (n == "providers" ==> c.providerBindings == map[])
    ensures ValueIn(ModuleBody(host, c), n) == Some(Reference(c.inputs[n]))
  {
    hide ModuleBody, ValueIn;
    ModuleAttributes(host, c, n);
  }

  lemma {:induction false} SourceText(host: string, c: RenderModule)
    ensures ModuleSource(host, c) == host + "/" + c.namespace + "/" + c.name + "/" + c.system
  {
  }

  lemma {:induction false} BindingsKept(m: ModuleNode, c: RenderModule)
    requires c.providerBindings.Keys == m.providerBindings.Keys
    ensures m.providerBindings == map[] <==> c.providerBindings == map[]
  {
    assert m.providerBindings != map[] ==> exists child :: child in m.providerBindings.Keys;
    assert c.providerBindings != map[] ==> exists child :: child in c.providerBindings.Keys;
  }

  lemma {:induction false} BindingsAreWritten(host: string, nodes: map<string, ProviderNode>, m: ModuleNode, c: RenderModule)
    requires c.providerBindings.Keys == m.providerBindings.Keys && m.providerBindings != map[]
    requires forall child :: child in m.providerBindings ==> IsBinding(nodes, m, Binding(child, c.providerBindings[child]))
    ensures BindingsWritten(nodes, m, ValueIn(ModuleBody(host, c), "providers"))
  {
    hide ModuleBody, ValueIn, IsBinding, Ascending;
    BindingsKept(m, c);
    ModuleAttributes(host, c, "providers");
    var children := Arranged(c.providerBindings.Keys);
    var each := BindingsOf(c, children);
    forall i | 0 <= i < |each| ensures IsBinding(nodes, m, each[i]) {
      assert children[i] in children;
    }
    forall child | child in m.providerBindings ensures exists i :: 0 <= i < |each| && each[i].child == child {
      assert child in c.providerBindings.Keys;
      var i :| 0 <= i < |children| && children[i] == child;
      assert each[i].child == child;
    }
  }

  lemma {:induction false} InputsKept(lib: Library, scope: Scope, nodes: map<string, ProviderNode>, documents: Documents, m: ModuleNode)
    requires ModuleClean(lib, scope, nodes, documents, m)
    ensures Carries(nodes, documents, m, CompiledModule(lib, scope, nodes, documents, m))
  {
    hide InputClean, BindingClean, RequiredInputGiven, MultiplicityClean, CountOf, ForEachOf, SanitizeVersion, Declared;
    var c, contract := CompiledModule(lib, scope, nodes, documents, m), documents.modules[m.nodeID];
    forall n | n in m.values ensures n in c.inputs {
      assert InputClean(lib, scope, contract, m, n);
    }
    forall child | child in m.providerBindings
      ensures child in c.providerBindings && IsBinding(nodes, m, Binding(child, c.providerBindings[child]))
    {
      assert BindingClean(documents, nodes, contract, m, child);
      BoundNode(documents, nodes, contract, m, child);
    }
  }

  lemma {:induction false} BoundNode(documents: Documents, nodes: map<string, ProviderNode>, contract: Contract, m: ModuleNode, child: string)
    requires child in m.providerBindings && BindingClean(documents, nodes, contract, m, child)
    ensures m.providerBindings[child] in nodes
  {
    hide NormalizeProviderIdentity;
  }

  // ------------------------------------------------------------------ providers

  /** The block of a provider configuration, under its local name and alias, with its arguments. */
  ghost predicate ProviderWritten(p: ProviderNode, b: Item) {
    && b.Block? && b.kind == "provider" && b.labels == [p.localName]
    && (p.alias != "" && "alias" !in p.configuration.arguments ==> ValueIn(b.body, "alias") == Some(StringCode(p.alias)))
    && forall n :: n in p.configuration.arguments ==> ValueIn(b.body, n).Some? && ValueIn(b.body, n).value.Reference?
  }

  /** The requirement for a local name is the upstream address and version of the provider's document. */
  ghost predicate RequirementWritten(documents: Documents, p: ProviderNode, main: seq<Item>)
    requires p.nodeID in documents.providers
  {
    var d := documents.providers[p.nodeID];
    exists b, required ::
      && b in main && b == Block("terraform", [], [Block("required_providers", [], required)])
      && ValueIn(required, p.localName) == Some(Requirement(d.providerNamespace + "/" + d.providerName, SanitizeVersion(d.version)))
  }

  lemma {:induction false} ProviderIsWritten(lib: Library, scope: Scope, documents: Documents, p: ProviderNode)
    requires ProviderClean(lib, scope, documents, p)
    ensures ProviderWritten(p, ProviderBlock(CompiledProvider(lib, scope, documents, p)))
  {
    hide BlockItems, ValueIn, SanitizeVersion;
    var r := CompiledProvider(lib, scope, documents, p);
    ProviderAttributes(r);
    ArgumentsKept(lib, scope, p.configuration, documents.providers[p.nodeID].configuration);
  }

  lemma {:induction false} ArgumentsKept(lib: Library, scope: Scope, c: ProviderConfig.Configuration, schema: ProviderSchema.Block)
    requires ProviderConfig.ConfigurationConforms(lib, scope, c, schema)
    ensures ProviderConfig.RenderedBlock(lib, scope, c, schema).arguments.Keys == c.arguments.Keys
  {
    hide ProviderConfig.ArgumentFits, ProviderConfig.BlocksFit, ProviderConfig.CountFits, ProviderConfig.RequiredGiven;
    forall n | n in c.arguments ensures n in ProviderConfig.RenderedBlock(lib, scope, c, schema).arguments {
      assert ProviderConfig.ArgumentFits(lib, scope, c, schema, n);
    }
  }

  // ------------------------------------------------------------------ the files

  lemma {:induction false} InSpaced(items: seq<Item>, item: Item)
    requires item in items
    ensures item in Spaced(items)
    decreases |items|
  {
    var last := |items| - 1;
    if item in items[..last] {
      InSpaced(items[..last], item);
    }
  }

  lemma {:induction false} InSeparated(items: seq<Item>, item: Item)
    requires item in items
    ensures item in Separated(items)
    decreases |items|
  {
    if |items| > 1 && item in items[1..] {
      InSeparated(items[1..], item);
    }
  }

  /** When the files of a clean request are written, every variable has its block. */
  lemma {:induction false} VariablesAreWritten(lib: Library, accepts: Reader, request: Request, documents: Documents, host: string, model: RenderModel, v: VariableNode)
    requires Clean(lib, request, documents) && Compiles(lib, request, documents, host, model)
    requires RenderedFiles(lib, accepts, model).Some? && v in request.variables
    ensures exists b :: b in RenderedFiles(lib, accepts, model).value.variables && VariableWritten(lib, v, b)
  {
    hide SortBy, VariableClean, CompiledVariable, VariableReads, MainReads, MainFile, VariableBlock, VariableWritten, ProvidersClean, ModulesClean,
      Spaced, RendersModules, RendersProviders;
    var i :| 0 <= i < |request.variables| && request.variables[i] == v;
    var r := CompiledVariable(lib, v);
    assert r == model.variables[i];
    var sorted := SortBy(model.variables, NameOfRenderVariable);
    SameElements(sorted, model.variables);
    assert r in sorted;
    var j :| 0 <= j < |sorted| && sorted[j] == r;
    assert VariableBlocks(lib, sorted)[j] == VariableBlock(lib, r);
    InSpaced(VariableBlocks(lib, sorted), VariableBlock(lib, r));
    VariableIsWritten(lib, v);
  }

  /** And every module has its block. */
  lemma {:induction false} ModulesAreWritten(lib: Library, accepts: Reader, request: Request, documents: Documents, host: string, model: RenderModel, m: ModuleNode)
    requires Clean(lib, request, documents) && Compiles(lib, request, documents, host, model)
    requires RenderedFiles(lib, accepts, model).Some? && m in request.modules
    ensures m.nodeID in documents.modules
    ensures exists b :: (b in RenderedFiles(lib, accepts, model).value.main
      && ModuleWritten(host, Table(request.providers, ProviderID), documents, m, b))
  {
    hide SortBy, ModuleClean, CompiledModule, MainReads, ModuleBlock, ModuleWritten, ProvidersClean, VariablesClean, ScopeOf,
      Separated, Spaced, RendersVariables, RendersProviders, TerraformBlock, ProviderBlocks, VariablesFile, ValuePrinter.Blank;
    var scope, nodes := ScopeOf(request), Table(request.providers, ProviderID);
    var i :| 0 <= i < |request.modules| && request.modules[i] == m;
    assert ModuleClean(lib, scope, nodes, documents, m);
    CleanHasDocument(lib, scope, nodes, documents, m);
    var r := CompiledModule(lib, scope, nodes, documents, m);
    assert r == model.modules[i];
    var sorted := SortBy(model.modules, NameOfRenderModule);
    SameElements(sorted, model.modules);
    assert r in sorted;
    var j :| 0 <= j < |sorted| && sorted[j] == r;
    assert ModuleBlocks(host, sorted)[j] == ModuleBlock(host, r);
    InSeparated(ModuleBlocks(host, sorted), ModuleBlock(host, r));
    ModuleIsWritten(lib, scope, nodes, documents, host, m);
  }

  lemma {:induction false} CleanHasDocument(lib: Library, scope: Scope, nodes: map<string, ProviderNode>, documents: Documents, m: ModuleNode)
    requires ModuleClean(lib, scope, nodes, documents, m)
    ensures m.nodeID in documents.modules
  {
  }

  /** And every provider configuration. */
  lemma {:induction false} ProvidersAreWritten(lib: Library, accepts: Reader, request: Request, documents: Documents, host: string, model: RenderModel, p: ProviderNode)
    requires Clean(lib, request, documents) && Compiles(lib, request, documents, host, model)
    requires RenderedFiles(lib, accepts, model).Some? && p in request.providers
    ensures exists b :: b in RenderedFiles(lib, accepts, model).value.main && ProviderWritten(p, b)
  {
    hide SortBy, ProviderClean, CompiledProvider, MainReads, ProviderBlock, ProviderWritten, VariablesClean, ModulesClean, ScopeOf,
      Separated, Spaced, RendersVariables, RendersModules, TerraformBlock, ModuleBlocks, VariablesFile, ValuePrinter.Blank;
    var scope := ScopeOf(request);
    var i :| 0 <= i < |request.providers| && request.providers[i] == p;
    assert ProviderClean(lib, scope, documents, p);
    ProviderHasDocument(lib, scope, documents, p);
    var r := CompiledProvider(lib, scope, documents, p);
    assert r == model.providers[i];
    var sorted := SortBy(model.providers, ProviderOrder);
    SameElements(sorted, model.providers);
    assert r in sorted;
    var j :| 0 <= j < |sorted| && sorted[j] == r;
    assert ProviderBlocks(sorted)[j] == ProviderBlock(r);
    InSpaced(ProviderBlocks(sorted), ProviderBlock(r));
    ProviderIsWritten(lib, scope, documents, p);
  }

  /** With one upstream address per provider, what is required for a local name is that of the provider's document. */
  lemma {:induction false} RequirementsAreWritten(lib: Library, accepts: Reader, request: Request, documents: Documents, host: string, model: RenderModel, p: ProviderNode)
    requires Clean(lib, request, documents) && Compiles(lib, request, documents, host, model)
    requires RenderedFiles(lib, accepts, model).Some? && p in request.providers && OneUpstream(documents) && PlainNames(documents)
    ensures p.nodeID in documents.providers && RequirementWritten(documents, p, RenderedFiles(lib, accepts, model).value.main)
  {
    hide SortBy, ProviderClean, MainReads, ProviderBlocks, VariablesClean, ModulesClean, ScopeOf, RequirementWritten,
      Separated, Spaced, RendersVariables, RendersModules, RendersProviders, TerraformBlock, ModuleBlocks, VariablesFile, ValuePrinter.Blank, OneUpstream, PlainNames;
    assert ProviderClean(lib, ScopeOf(request), documents, p);
    ProviderHasDocument(lib, ScopeOf(request), documents, p);
    var ps, ms := SortBy(model.providers, ProviderOrder), SortBy(model.modules, NameOfRenderModule);
    var rest := Spaced(ProviderBlocks(ps)) + Separated(ModuleBlocks(model.registryHost, ms));
    assert MainFile(model.registryHost, ps, ms) == TerraformBlock(ps) + rest;
    RequirementIsWritten(lib, request, documents, host, model, p, TerraformBlock(ps) + rest);
  }

  lemma {:induction false} ProviderHasDocument(lib: Library, scope: Scope, documents: Documents, p: ProviderNode)
    requires ProviderClean(lib, scope, documents, p)
    ensures p.nodeID in documents.providers
  {
  }

  lemma {:induction false} RequirementIsWritten(lib: Library, request: Request, documents: Documents, host: string, model: RenderModel, p: ProviderNode, main: seq<Item>)
    requires Clean(lib, request, documents) && Compiles(lib, request, documents, host, model)
    requires OneUpstream(documents) && PlainNames(documents) && p in request.providers && p.nodeID in documents.providers
    requires exists rest :: main == TerraformBlock(SortBy(model.providers, ProviderOrder)) + rest
    ensures RequirementWritten(documents, p, main)
  {
    hide SortBy, Clean, OneUpstream, PlainNames, RequiredProviders, ValueIn, SanitizeVersion, RendersVariables, RendersModules;
    RequiredProvidersLoseNothing(lib, request, documents, host, model);
    var ps := SortBy(model.providers, ProviderOrder);
    SameElements(ps, model.providers);
    var i :| 0 <= i < |request.providers| && request.providers[i] == p;
    var r := model.providers[i];
    assert r in ps;
    var b := Block("terraform", [], [Block("required_providers", [], RequiredProviders(ps))]);
    assert TerraformBlock(ps)[0] == b;
    assert b in main;
  }
}
