/**
  Building the root module of an Assembly: the canvas request is checked against the authoritative
  contracts and schemas, names are resolved, and the result is a model of the files to write.
 */
module AssemblyBuild {
  import opened Basics
  import opened Strings
  import opened Sorting
  import opened AssemblyTypes
  import opened ValuePrinter
  import opened TypePrinter
  import opened References
  import opened ModuleInputs
  import opened ProviderConfig
  import HclTokens
  import ProviderSchema

  const SCHEMA_VERSION := "assembly.export.v1"
  const CONTRACT_SCHEMA_VERSION := "assembly.module.v1"
  const GRADE_UNSUPPORTED := "unsupported"

  // ------------------------------------------------------------------ requests, documents, models

  datatype ProviderNode = ProviderNode(
    nodeID: string, namespace: string, name: string, version: string, localName: string, alias: string,
    configuration: Configuration)

  datatype Request = Request(
    schemaVersion: string, variables: seq<VariableNode>, modules: seq<ModuleNode>, providers: seq<ProviderNode>)

  datatype RequiredProvider = RequiredProvider(localName: string, source: string)

  datatype Contract = Contract(
    schemaVersion: string, grade: string, namespace: string, name: string, system: string, version: string,
    variables: seq<ContractVariable>, requiredProviders: seq<RequiredProvider>)

  datatype ProviderDocument = ProviderDocument(
    namespace: string, name: string, providerNamespace: string, providerName: string, version: string,
    configuration: ProviderSchema.Block)

  /** What the server knows, by node ID. */
  datatype Documents = Documents(modules: map<string, Contract>, providers: map<string, ProviderDocument>)

  datatype RenderVariable = RenderVariable(
    name: string, t: HclTokens.Ast, description: string, validations: seq<Validation>, default: Option<HclTokens.Ast>)

  datatype ProviderReference = ProviderReference(localName: string, alias: string)

  datatype RenderModule = RenderModule(
    localName: string, namespace: string, name: string, system: string, version: string, inputs: map<string, Expression>,
    count: Option<Expression>, forEach: Option<Expression>, providerBindings: map<string, ProviderReference>)

  datatype RenderProvider = RenderProvider(
    namespace: string, name: string, providerNamespace: string, providerName: string, version: string,
    localName: string, alias: string, configuration: RenderBlock)

  datatype RenderModel = RenderModel(
    registryHost: string, variables: seq<RenderVariable>, modules: seq<RenderModule>, providers: seq<RenderProvider>)

  function VariableID(v: VariableNode): string { v.nodeID }
  function ModuleID(m: ModuleNode): string { m.nodeID }
  function ProviderID(p: ProviderNode): string { p.nodeID }
  function NameOfVariable(v: VariableNode): string { v.name }
  function NameOfModule(m: ModuleNode): string { m.localName }
  function NameOfInput(v: ContractVariable): string { v.name }
  function NameOfRequired(r: RequiredProvider): string { r.localName }

  /** One provider configuration per local name and alias. */
  function ConfigurationKey(p: ProviderNode): string { p.localName + ":" + p.alias }

  function ScopeOf(request: Request): Scope {
    Scope(Table(request.variables, VariableID), Table(request.modules, ModuleID))
  }

  /** The last two segments of a provider source address. */
  function NormalizeProviderIdentity(source: string): string {
    var parts := Split(TrimSpace(source), '/');
    if |parts| >= 2 then parts[|parts| - 2] + "/" + parts[|parts| - 1] else source
  }

  /** The host part of a source address, and anything before it, is not part of the identity. */
  lemma {:induction false} IdentityIsLastTwo(parts: seq<string>)
    requires |parts| >= 2 && forall i :: 0 <= i < |parts| ==> '/' !in parts[i]
    requires TrimSpace(Join(parts, '/')) == Join(parts, '/')
    ensures NormalizeProviderIdentity(Join(parts, '/')) == parts[|parts| - 2] + "/" + parts[|parts| - 1]
  {
    SplitJoin(parts, '/');
  }

  // ------------------------------------------------------------------ names used so far

  /** The table of names is shared by all kinds of node; the kind is part of the key. */
  function NameKey(kind: string, name: string): string {
    kind + ":" + name
  }

  const VARIABLE := "variable"
  const MODULE := "module"
  const PROVIDER := "provider"

  lemma {:induction false} NameKeysDiffer(a: string, b: string)
    ensures NameKey(VARIABLE, a) != NameKey(MODULE, b)
    ensures NameKey(VARIABLE, a) != NameKey(PROVIDER, b)
    ensures NameKey(MODULE, a) != NameKey(PROVIDER, b)
    ensures NameKey(VARIABLE, a) == NameKey(VARIABLE, b) <==> a == b
    ensures NameKey(MODULE, a) == NameKey(MODULE, b) <==> a == b
    ensures NameKey(PROVIDER, a) == NameKey(PROVIDER, b) <==> a == b
  {
    SamePrefix(VARIABLE + ":", a, b);
    SamePrefix(MODULE + ":", a, b);
    SamePrefix(PROVIDER + ":", a, b);
    assert NameKey(VARIABLE, a)[0] == 'v' && NameKey(MODULE, b)[0] == NameKey(MODULE, a)[0] == 'm' && NameKey(PROVIDER, b)[0] == 'p';
  }

  lemma {:induction false} SamePrefix(prefix: string, a: string, b: string)
    ensures prefix + a == prefix + b <==> a == b
  {
    assert (prefix + a)[|prefix|..] == a && (prefix + b)[|prefix|..] == b;
  }

  /** The keys that the nodes of one kind have taken. */
  ghost function KeysTaken<T>(kind: string, xs: seq<T>, name: T -> string): set<string> {
    set x | x in xs :: NameKey(kind, name(x))
  }

  ghost predicate NameTaken<T>(xs: seq<T>, name: T -> string, n: string) {
    exists x :: x in xs && name(x) == n
  }

  lemma {:induction false} TakenNext<T>(kind: string, xs: seq<T>, x: T, name: T -> string)
    ensures KeysTaken(kind, xs + [x], name) == KeysTaken(kind, xs, name) + {NameKey(kind, name(x))}
  {
    forall y ensures y in xs + [x] <==> y in xs || y == x {}
  }

  // ------------------------------------------------------------------ variables

  predicate ValidationClean(lib: Library, v: Validation) {
    !Blank(v.condition) && lib.validExpression(TrimSpace(v.condition)) && !Blank(v.errorMessage)
  }

  predicate VariableClean(lib: Library, v: VariableNode) {
    && ValidIdentifier(lib, v.name)
    && TypeText(lib, v.t).Some?
    && (forall i :: 0 <= i < |v.validations| ==> ValidationClean(lib, v.validations[i]))
    && (v.hasDefault ==> ValueText(lib, v.t, v.default).Some?)
  }

  function TrimmedValidation(v: Validation): Validation {
    Validation(TrimSpace(v.condition), TrimSpace(v.errorMessage))
  }

  function CompiledVariable(lib: Library, v: VariableNode): RenderVariable
    requires VariableClean(lib, v)
  {
    RenderVariable(
      v.name, TypeText(lib, v.t).value, v.description,
      seq(|v.validations|, i requires 0 <= i < |v.validations| => TrimmedValidation(v.validations[i])),
      if v.hasDefault then ValueText(lib, v.t, v.default) else None)
  }

  predicate VariablesClean(lib: Library, vs: seq<VariableNode>) {
    (forall v :: v in vs ==> VariableClean(lib, v)) && DistinctKeys(vs, NameOfVariable)
  }

  function CompiledVariables(lib: Library, vs: seq<VariableNode>): seq<RenderVariable>
    requires forall v :: v in vs ==> VariableClean(lib, v)
  {
    seq(|vs|, i requires 0 <= i < |vs| => CompiledVariable(lib, vs[i]))
  }

  /** `rendered` is the model of the variables `vs`. */
  ghost predicate RendersVariables(lib: Library, vs: seq<VariableNode>, rendered: seq<RenderVariable>) {
    (forall v :: v in vs ==> VariableClean(lib, v)) && rendered == CompiledVariables(lib, vs)
  }

  lemma {:induction false} NextVariable(lib: Library, vs: seq<VariableNode>, v: VariableNode)
    ensures VariablesClean(lib, vs + [v]) <==> VariablesClean(lib, vs) && VariableClean(lib, v) && !NameTaken(vs, NameOfVariable, v.name)
    ensures NameKey(VARIABLE, v.name) in KeysTaken(VARIABLE, vs, NameOfVariable) <==> NameTaken(vs, NameOfVariable, v.name)
  {
    hide VariableClean, NameKey, DistinctKeys;
    forall u ensures u in vs + [v] <==> u in vs || u == v {}
    DistinctNext(vs, v, NameOfVariable);
    forall u: VariableNode ensures NameKey(VARIABLE, u.name) == NameKey(VARIABLE, v.name) <==> u.name == v.name {
      NameKeysDiffer(u.name, v.name);
    }
  }

  lemma {:induction false} NextRendered(lib: Library, vs: seq<VariableNode>, v: VariableNode, rendered: seq<RenderVariable>)
    requires RendersVariables(lib, vs, rendered) && VariableClean(lib, v)
    ensures RendersVariables(lib, vs + [v], rendered + [CompiledVariable(lib, v)])
  {
    hide VariableClean, CompiledVariable;
    forall u ensures u in vs + [v] <==> u in vs || u == v {}
  }

  method BuildVariables(lib: Library, variables: seq<VariableNode>)
    returns (localNames: set<string>, rendered: seq<RenderVariable>, clean: bool)
    ensures localNames == KeysTaken(VARIABLE, variables, NameOfVariable)
    ensures clean <==> VariablesClean(lib, variables)
    ensures clean ==> RendersVariables(lib, variables, rendered)
  {
    hide VariableClean, KeysTaken, NameKey, RendersVariables, NameTaken, CompiledVariable;
    localNames, rendered, clean := {}, [], true;
    NoVariables(lib, variables);
    for i := 0 to |variables|
      invariant localNames == KeysTaken(VARIABLE, variables[..i], NameOfVariable)
      invariant clean <==> VariablesClean(lib, variables[..i])
      invariant clean ==> RendersVariables(lib, variables[..i], rendered)
    {
      hide VariablesClean;
      var variable := variables[i];
      NextVariable(lib, variables[..i], variable);
      TakenNext(VARIABLE, variables[..i], variable, NameOfVariable);
      assert variables[..i + 1] == variables[..i] + [variable];
      if NameKey(VARIABLE, variable.name) in localNames {
        clean := false;
      }
      localNames := localNames + {NameKey(VARIABLE, variable.name)};
      var each, accepted := BuildVariable(lib, variable);
      if clean && accepted {
        NextRendered(lib, variables[..i], variable, rendered);
      }
      clean := clean && accepted;
      rendered := rendered + each;
    }
    assert variables[..|variables|] == variables;
  }

  lemma {:induction false} NoVariables(lib: Library, variables: seq<VariableNode>)
    ensures KeysTaken(VARIABLE, variables[..0], NameOfVariable) == {}
    ensures VariablesClean(lib, variables[..0]) && RendersVariables(lib, variables[..0], [])
  {
  }

  /** Nothing is rendered for a variable whose type is refused. */
  method BuildVariable(lib: Library, variable: VariableNode) returns (rendered: seq<RenderVariable>, clean: bool)
    ensures clean <==> VariableClean(lib, variable)
    ensures clean ==> rendered == [CompiledVariable(lib, variable)]
  {
    hide TypeText, ValueText, ValidationClean;
    clean := ValidIdentifier(lib, variable.name);
    var t := RenderTypeSpec(lib, variable.t);
    if t.None? {
      return [], false;
    }
    var validations, valid := BuildValidations(lib, variable.validations);
    clean := clean && valid;
    var default: Option<HclTokens.Ast> := None;
    if variable.hasDefault {
      default := RenderValue(lib, variable.t, variable.default);
      if default.None? {
        clean := false;
      }
    }
    rendered := [RenderVariable(variable.name, t.value, variable.description, validations, default)];
    assert clean ==> validations == CompiledVariable(lib, variable).validations;
  }

  method BuildValidations(lib: Library, validations: seq<Validation>) returns (trimmed: seq<Validation>, clean: bool)
    ensures clean <==> forall i :: 0 <= i < |validations| ==> ValidationClean(lib, validations[i])
    ensures clean ==> |trimmed| == |validations| && forall i :: 0 <= i < |validations| ==> trimmed[i] == TrimmedValidation(validations[i])
  {
    trimmed, clean := [], true;
    for i := 0 to |validations|
      invariant clean <==> forall j :: 0 <= j < i ==> ValidationClean(lib, validations[j])
      invariant clean ==> |trimmed| == i && forall j :: 0 <= j < i ==> trimmed[j] == TrimmedValidation(validations[j])
    {
      hide TrimSpace;
      var condition := TrimSpace(validations[i].condition);
      if condition == "" {
        clean := false;
        continue;
      }
      if !lib.validExpression(condition) {
        clean := false;
        continue;
      }
      var errorMessage := TrimSpace(validations[i].errorMessage);
      if errorMessage == "" {
        clean := false;
        continue;
      }
      trimmed := trimmed + [Validation(condition, errorMessage)];
    }
  }

  // ------------------------------------------------------------------ names of modules and providers

  predicate ModuleNamesClean(lib: Library, ms: seq<ModuleNode>) {
    (forall m :: m in ms ==> ValidIdentifier(lib, m.localName)) && DistinctKeys(ms, NameOfModule)
  }

  predicate ProviderNameClean(lib: Library, p: ProviderNode) {
    ValidIdentifier(lib, p.localName) && (p.alias != "" ==> ValidIdentifier(lib, p.alias))
  }

  predicate ProviderNamesClean(lib: Library, ps: seq<ProviderNode>) {
    (forall p :: p in ps ==> ProviderNameClean(lib, p)) && DistinctKeys(ps, ConfigurationKey)
  }

  lemma {:induction false} TakenIff<T>(kind: string, xs: seq<T>, name: T -> string, n: string)
    requires kind == MODULE || kind == PROVIDER
    ensures NameKey(kind, n) in KeysTaken(kind, xs, name) <==> NameTaken(xs, name, n)
  {
    hide NameKey;
    forall x: T ensures NameKey(kind, name(x)) == NameKey(kind, n) <==> name(x) == n {
      NameKeysDiffer(name(x), n);
    }
  }

  /** Names taken by nodes of another kind are no obstacle. */
  ghost predicate NoneOfKind(kind: string, localNames: set<string>) {
    forall n :: NameKey(kind, n) !in localNames
  }

  lemma {:induction false} NextModule(lib: Library, ms: seq<ModuleNode>, m: ModuleNode)
    ensures ModuleNamesClean(lib, ms + [m])
      <==> ModuleNamesClean(lib, ms) && ValidIdentifier(lib, m.localName) && !NameTaken(ms, NameOfModule, m.localName)
  {
    hide DistinctKeys;
    forall u ensures u in ms + [m] <==> u in ms || u == m {}
    DistinctNext(ms, m, NameOfModule);
  }

  method NameModules(lib: Library, modules: seq<ModuleNode>, before: set<string>) returns (localNames: set<string>, clean: bool)
    requires NoneOfKind(MODULE, before)
    ensures localNames == before + KeysTaken(MODULE, modules, NameOfModule)
    ensures clean <==> ModuleNamesClean(lib, modules)
  {
    hide KeysTaken, NameKey, NameTaken, DistinctKeys;
    localNames, clean := before, true;
    NoKeys(MODULE, modules, NameOfModule);
    for i := 0 to |modules|
      invariant localNames == before + KeysTaken(MODULE, modules[..i], NameOfModule)
      invariant clean <==> ModuleNamesClean(lib, modules[..i])
    {
      hide ModuleNamesClean;
      var module_ := modules[i];
      NextModule(lib, modules[..i], module_);
      TakenNext(MODULE, modules[..i], module_, NameOfModule);
      TakenIff(MODULE, modules[..i], NameOfModule, module_.localName);
      assert modules[..i + 1] == modules[..i] + [module_];
      if !ValidIdentifier(lib, module_.localName) {
        clean := false;
      }
      if NameKey(MODULE, module_.localName) in localNames {
        clean := false;
      }
      localNames := localNames + {NameKey(MODULE, module_.localName)};
    }
    assert modules[..|modules|] == modules;
  }

  lemma {:induction false} NoKeys<T>(kind: string, xs: seq<T>, name: T -> string)
    ensures KeysTaken(kind, xs[..0], name) == {} && DistinctKeys(xs[..0], name)
  {
  }

  lemma {:induction false} NextProvider(lib: Library, ps: seq<ProviderNode>, p: ProviderNode)
    ensures ProviderNamesClean(lib, ps + [p])
      <==> ProviderNamesClean(lib, ps) && ProviderNameClean(lib, p) && !NameTaken(ps, ConfigurationKey, ConfigurationKey(p))
  {
    hide DistinctKeys, ProviderNameClean, ConfigurationKey;
    forall u ensures u in ps + [p] <==> u in ps || u == p {}
    DistinctNext(ps, p, ConfigurationKey);
  }

  method NameProviders(lib: Library, providers: seq<ProviderNode>, before: set<string>) returns (localNames: set<string>, clean: bool)
    requires NoneOfKind(PROVIDER, before)
    ensures localNames == before + KeysTaken(PROVIDER, providers, ConfigurationKey)
    ensures clean <==> ProviderNamesClean(lib, providers)
  {
    hide KeysTaken, NameKey, NameTaken, DistinctKeys, ConfigurationKey;
    localNames, clean := before, true;
    NoKeys(PROVIDER, providers, ConfigurationKey);
    for i := 0 to |providers|
      invariant localNames == before + KeysTaken(PROVIDER, providers[..i], ConfigurationKey)
      invariant clean <==> ProviderNamesClean(lib, providers[..i])
    {
      hide ProviderNamesClean;
      var provider := providers[i];
      NextProvider(lib, providers[..i], provider);
      TakenNext(PROVIDER, providers[..i], provider, ConfigurationKey);
      TakenIff(PROVIDER, providers[..i], ConfigurationKey, ConfigurationKey(provider));
      assert providers[..i + 1] == providers[..i] + [provider];
      if !ValidIdentifier(lib, provider.localName) {
        clean := false;
      }
      if provider.alias != "" && !ValidIdentifier(lib, provider.alias) {
        clean := false;
      }
      var key := ConfigurationKey(provider);
      if NameKey(PROVIDER, key) in localNames {
        clean := false;
      }
      localNames := localNames + {NameKey(PROVIDER, key)};
    }
    assert providers[..|providers|] == providers;
  }

  // ------------------------------------------------------------------ providers

  predicate ProviderClean(lib: Library, scope: Scope, documents: Documents, p: ProviderNode) {
    && p.nodeID in documents.providers
    && var d := documents.providers[p.nodeID];
    && d.namespace == p.namespace && d.name == p.name && d.version == SanitizeVersion(p.version)
    && ConfigurationConforms(lib, scope, p.configuration, d.configuration)
  }

  function RequirementText(d: ProviderDocument): string {
    d.namespace + "/" + d.name + "@" + d.version
  }

  /** Provider configurations that share a local name need the same provider and version. */
  predicate Agree(documents: Documents, p: ProviderNode, q: ProviderNode) {
    p.localName == q.localName && p.nodeID in documents.providers && q.nodeID in documents.providers ==>
      RequirementText(documents.providers[p.nodeID]) == RequirementText(documents.providers[q.nodeID])
  }

  ghost predicate AllAgree(documents: Documents, ps: seq<ProviderNode>) {
    forall p, q :: p in ps && q in ps ==> Agree(documents, p, q)
  }

  ghost predicate ProvidersClean(lib: Library, scope: Scope, documents: Documents, ps: seq<ProviderNode>) {
    (forall p :: p in ps ==> ProviderClean(lib, scope, documents, p)) && AllAgree(documents, ps)
  }

  function CompiledProvider(lib: Library, scope: Scope, documents: Documents, p: ProviderNode): RenderProvider
    requires p.nodeID in documents.providers
  {
    var d := documents.providers[p.nodeID];
    RenderProvider(d.namespace, d.name, d.providerNamespace, d.providerName, d.version, p.localName, p.alias,
      RenderedBlock(lib, scope, p.configuration, d.configuration))
  }

  ghost predicate RendersProviders(lib: Library, scope: Scope, documents: Documents, ps: seq<ProviderNode>, rendered: seq<RenderProvider>) {
    && |rendered| == |ps|
    && forall i :: 0 <= i < |ps| ==>
      ps[i].nodeID in documents.providers && rendered[i] == CompiledProvider(lib, scope, documents, ps[i])
  }

  /** The requirement recorded for every local name is that of the providers that use it. */
  ghost predicate Records(documents: Documents, ps: seq<ProviderNode>, requirements: map<string, string>) {
    && (forall p :: p in ps ==>
        && p.nodeID in documents.providers
        && p.localName in requirements
        && requirements[p.localName] == RequirementText(documents.providers[p.nodeID]))
    && (forall n :: n in requirements ==> exists p :: p in ps && p.localName == n)
  }

  predicate Fresh(requirements: map<string, string>, localName: string, text: string) {
    localName in requirements ==> requirements[localName] == text
  }

  lemma {:induction false} NextRequirement(lib: Library, scope: Scope, documents: Documents, ps: seq<ProviderNode>, p: ProviderNode, requirements: map<string, string>)
    requires ProvidersClean(lib, scope, documents, ps) && Records(documents, ps, requirements)
    requires p.nodeID in documents.providers
    ensures ProvidersClean(lib, scope, documents, ps + [p])
      <==> ProviderClean(lib, scope, documents, p) && Fresh(requirements, p.localName, RequirementText(documents.providers[p.nodeID]))
    ensures Fresh(requirements, p.localName, RequirementText(documents.providers[p.nodeID])) ==>
      Records(documents, ps + [p], requirements[p.localName := RequirementText(documents.providers[p.nodeID])])
  {
    hide ProviderClean, RequirementText;
    forall u ensures u in ps + [p] <==> u in ps || u == p {}
    if p.localName in requirements {
      var q :| q in ps && q.localName == p.localName;
      assert ProvidersClean(lib, scope, documents, ps + [p]) ==> Agree(documents, p, q);
    }
  }

  lemma {:induction false} UncleanStays(lib: Library, scope: Scope, documents: Documents, ps: seq<ProviderNode>, p: ProviderNode)
    requires !ProvidersClean(lib, scope, documents, ps) || !ProviderClean(lib, scope, documents, p)
    ensures !ProvidersClean(lib, scope, documents, ps + [p])
  {
    hide ProviderClean, Agree;
    assert forall u :: u in ps ==> u in ps + [p];
    assert p in ps + [p];
  }

  lemma {:induction false} NoProviders(lib: Library, scope: Scope, documents: Documents, ps: seq<ProviderNode>)
    ensures ProvidersClean(lib, scope, documents, ps[..0]) && Records(documents, ps[..0], map[])
    ensures RendersProviders(lib, scope, documents, ps[..0], [])
  {
  }

  lemma {:induction false} NextRenderedProvider(lib: Library, scope: Scope, documents: Documents, ps: seq<ProviderNode>, p: ProviderNode, rendered: seq<RenderProvider>)
    requires RendersProviders(lib, scope, documents, ps, rendered) && p.nodeID in documents.providers
    ensures RendersProviders(lib, scope, documents, ps + [p], rendered + [CompiledProvider(lib, scope, documents, p)])
  {
    hide CompiledProvider;
  }

  method BuildProviders(lib: Library, scope: Scope, documents: Documents, providers: seq<ProviderNode>)
    returns (rendered: seq<RenderProvider>, clean: bool)
    ensures clean <==> ProvidersClean(lib, scope, documents, providers)
    ensures clean ==> RendersProviders(lib, scope, documents, providers, rendered)
  {
    hide ProvidersClean, RendersProviders, Records, RequirementText, RenderedBlock, ConfigurationConforms, SanitizeVersion;
    rendered, clean := [], true;
    var requirements: map<string, string> := map[];
    NoProviders(lib, scope, documents, providers);
    for i := 0 to |providers|
      invariant clean <==> ProvidersClean(lib, scope, documents, providers[..i])
      invariant clean ==> RendersProviders(lib, scope, documents, providers[..i], rendered) && Records(documents, providers[..i], requirements)
    {
      var provider := providers[i];
      assert providers[..i + 1] == providers[..i] + [provider];
      if !clean || !ProviderClean(lib, scope, documents, provider) {
        UncleanStays(lib, scope, documents, providers[..i], provider);
      }
      if provider.nodeID !in documents.providers {
        clean := false;
        continue;
      }
      var document := documents.providers[provider.nodeID];
      if clean {
        NextRequirement(lib, scope, documents, providers[..i], provider, requirements);
        NextRenderedProvider(lib, scope, documents, providers[..i], provider, rendered);
      }
      if document.namespace != provider.namespace || document.name != provider.name
        || document.version != SanitizeVersion(provider.version)
      {
        clean := false;
        continue;
      }
      var requirement := RequirementText(document);
      if provider.localName in requirements && requirements[provider.localName] != requirement {
        clean := false;
        continue;
      }
      requirements := requirements[provider.localName := requirement];
      var configuration, conforms := BuildProviderConfiguration(lib, scope, provider.configuration, document.configuration);
      clean := clean && conforms;
      rendered := rendered + [RenderProvider(document.namespace, document.name, document.providerNamespace, document.providerName,
        document.version, provider.localName, provider.alias, configuration)];
    }
    assert providers[..|providers|] == providers;
  }

  // ------------------------------------------------------------------ modules

  function Declared(contract: Contract): map<string, ContractVariable> {
    Table(contract.variables, NameOfInput)
  }

  function Required(contract: Contract): map<string, RequiredProvider> {
    Table(contract.requiredProviders, NameOfRequired)
  }

  /** A supported contract for this very module and version. */
  predicate ContractMatches(documents: Documents, m: ModuleNode) {
    && m.nodeID in documents.modules
    && var c := documents.modules[m.nodeID];
    && c.schemaVersion == CONTRACT_SCHEMA_VERSION && c.grade != GRADE_UNSUPPORTED
    && c.namespace == m.namespace && c.name == m.name && SanitizeVersion(c.version) == SanitizeVersion(m.version)
  }

  predicate RequiredInputGiven(m: ModuleNode, v: ContractVariable) {
    v.required ==> v.name in m.values && InputValueProvided(m.values[v.name])
  }

  /** An input is declared and has an expression at its declared type. */
  predicate InputClean(lib: Library, scope: Scope, contract: Contract, m: ModuleNode, n: string)
    requires n in m.values
  {
    n in Declared(contract) && InputText(lib, scope, m.values[n], Declared(contract)[n].t).Some?
  }

  predicate MultiplicityClean(lib: Library, scope: Scope, m: Multiplicity) {
    if m.kind == "" || m.kind == "none" then true
    else if m.kind == "count" then
      m.expr.Some? && ResolveFieldValue(lib, scope, m.expr.value).Some? && (m.mode == "conditional" || m.mode == "fixed")
    else if m.kind == "for_each" then m.variableNodeID.Some? && m.variableNodeID.value in scope.variables
    else false
  }

  function CountOf(lib: Library, scope: Scope, m: Multiplicity): Option<Expression> {
    if m.kind != "count" || m.expr.None? then None
    else
      match ResolveFieldValue(lib, scope, m.expr.value)
      case None => None
      case Some(e) => Some(if m.mode == "conditional" then WithSuffix(lib, e) else e)
  }

  function ForEachOf(scope: Scope, m: Multiplicity): Option<Expression> {
    if m.kind != "for_each" || m.variableNodeID.None? || m.variableNodeID.value !in scope.variables then None
    else Some(Variable(scope.variables[m.variableNodeID.value].name))
  }

  /** A binding names a required provider and a provider node whose document has the identity required. */
  predicate BindingClean(documents: Documents, nodes: map<string, ProviderNode>, contract: Contract, m: ModuleNode, child: string)
    requires child in m.providerBindings
  {
    && child in Required(contract)
    && var id := m.providerBindings[child];
    && id in nodes && id in documents.providers
    && var d := documents.providers[id];
    && NormalizeProviderIdentity(Required(contract)[child].source) == d.providerNamespace + "/" + d.providerName
  }

  predicate ModuleClean(lib: Library, scope: Scope, nodes: map<string, ProviderNode>, documents: Documents, m: ModuleNode) {
    && ContractMatches(documents, m)
    && var contract := documents.modules[m.nodeID];
    && (forall v :: v in contract.variables ==> RequiredInputGiven(m, v))
    && (forall n :: n in m.values ==> InputClean(lib, scope, contract, m, n))
    && MultiplicityClean(lib, scope, m.multiplicity)
    && (forall child :: child in m.providerBindings ==> BindingClean(documents, nodes, contract, m, child))
  }

  function CompiledInputs(lib: Library, scope: Scope, contract: Contract, m: ModuleNode): map<string, Expression> {
    map n | n in m.values && InputClean(lib, scope, contract, m, n) :: InputText(lib, scope, m.values[n], Declared(contract)[n].t).value
  }

  function CompiledBindings(documents: Documents, nodes: map<string, ProviderNode>, contract: Contract, m: ModuleNode): map<string, ProviderReference> {
    map child | child in m.providerBindings && BindingClean(documents, nodes, contract, m, child) ::
      ProviderReference(nodes[m.providerBindings[child]].localName, nodes[m.providerBindings[child]].alias)
  }

  function CompiledModule(lib: Library, scope: Scope, nodes: map<string, ProviderNode>, documents: Documents, m: ModuleNode): RenderModule
    requires m.nodeID in documents.modules
  {
    var c := documents.modules[m.nodeID];
    RenderModule(m.localName, c.namespace, c.name, c.system, SanitizeVersion(c.version), CompiledInputs(lib, scope, c, m),
      CountOf(lib, scope, m.multiplicity), ForEachOf(scope, m.multiplicity), CompiledBindings(documents, nodes, c, m))
  }

  method CheckRequiredInputs(contract: Contract, m: ModuleNode) returns (clean: bool)
    ensures clean <==> forall v :: v in contract.variables ==> RequiredInputGiven(m, v)
  {
    clean := true;
    for i := 0 to |contract.variables|
      invariant clean <==> forall j :: 0 <= j < i ==> RequiredInputGiven(m, contract.variables[j])
    {
      var variable := contract.variables[i];
      var provided := variable.name in m.values && InputValueProvided(m.values[variable.name]);
      if variable.required && !provided {
        clean := false;
      }
    }
  }

  /** The inputs among `names`. */
  ghost function InputsAmong(lib: Library, scope: Scope, contract: Contract, m: ModuleNode, names: seq<string>): map<string, Expression> {
    map n | n in names && n in m.values && InputClean(lib, scope, contract, m, n) ::
      InputText(lib, scope, m.values[n], Declared(contract)[n].t).value
  }

  ghost predicate AllInputsClean(lib: Library, scope: Scope, contract: Contract, m: ModuleNode, names: seq<string>) {
    forall n :: n in names && n in m.values ==> InputClean(lib, scope, contract, m, n)
  }

  lemma {:induction false} NextInput(lib: Library, scope: Scope, contract: Contract, m: ModuleNode, names: seq<string>, n: string)
    requires n in m.values
    ensures InputsAmong(lib, scope, contract, m, names + [n]) ==
      if InputClean(lib, scope, contract, m, n) then
        InputsAmong(lib, scope, contract, m, names)[n := InputText(lib, scope, m.values[n], Declared(contract)[n].t).value]
      else InputsAmong(lib, scope, contract, m, names)
    ensures AllInputsClean(lib, scope, contract, m, names + [n])
      <==> AllInputsClean(lib, scope, contract, m, names) && InputClean(lib, scope, contract, m, n)
  {
    hide InputText, Declared;
  }

  lemma {:induction false} NoInputs(lib: Library, scope: Scope, contract: Contract, m: ModuleNode, names: seq<string>)
    ensures InputsAmong(lib, scope, contract, m, names[..0]) == map[] && AllInputsClean(lib, scope, contract, m, names[..0])
  {
  }

  lemma {:induction false} EveryInput(lib: Library, scope: Scope, contract: Contract, m: ModuleNode, names: seq<string>)
    requires forall n :: n in names <==> n in m.values
    ensures InputsAmong(lib, scope, contract, m, names) == CompiledInputs(lib, scope, contract, m)
    ensures AllInputsClean(lib, scope, contract, m, names) <==> forall n :: n in m.values ==> InputClean(lib, scope, contract, m, n)
  {
    hide InputText, Declared;
  }

  method BuildInputs(lib: Library, scope: Scope, contract: Contract, m: ModuleNode) returns (inputs: map<string, Expression>, clean: bool)
    ensures inputs == CompiledInputs(lib, scope, contract, m)
    ensures clean <==> forall n :: n in m.values ==> InputClean(lib, scope, contract, m, n)
  {
    hide InputText, InputsAmong, AllInputsClean, CompiledInputs, Arranged, Ascending, SortBy;
    inputs, clean := map[], true;
    var variables := TableOf(contract.variables, NameOfInput);
    var names := SortedKeys(m.values);
    NoInputs(lib, scope, contract, m, names);
    for i := 0 to |names|
      invariant inputs == InputsAmong(lib, scope, contract, m, names[..i])
      invariant clean <==> AllInputsClean(lib, scope, contract, m, names[..i])
    {
      var name := names[i];
      assert names[..i + 1] == names[..i] + [name];
      assert name in names;
      NextInput(lib, scope, contract, m, names[..i], name);
      if name !in variables {
        clean := false;
        continue;
      }
      var expression := RenderInputValue(lib, scope, m.values[name], variables[name].t);
      if expression.None? {
        clean := false;
        continue;
      }
      inputs := inputs[name := expression.value];
    }
    assert names[..|names|] == names;
    EveryInput(lib, scope, contract, m, names);
  }

  method BuildMultiplicity(lib: Library, scope: Scope, m: Multiplicity)
    returns (count: Option<Expression>, forEach: Option<Expression>, clean: bool)
    ensures clean <==> MultiplicityClean(lib, scope, m)
    ensures count == CountOf(lib, scope, m) && forEach == ForEachOf(scope, m)
  {
    hide ResolveFieldValue, WithSuffix;
    count, forEach, clean := None, None, true;
    match m.kind
    case "" => return;
    case "none" => return;
    case "count" =>
      if m.expr.None? {
        clean := false;
        return;
      }
      var expression := ResolveFieldValue(lib, scope, m.expr.value);
      if expression.None? {
        clean := false;
        return;
      }
      if m.mode == "conditional" {
        expression := Some(WithSuffix(lib, expression.value));
      } else if m.mode != "fixed" {
        clean := false;
      }
      count := expression;
    case "for_each" =>
      if m.variableNodeID.None? {
        clean := false;
        return;
      }
      if m.variableNodeID.value !in scope.variables {
        clean := false;
        return;
      }
      forEach := Some(Variable(scope.variables[m.variableNodeID.value].name));
    case _ => clean := false;
  }

  ghost function BindingsAmong(documents: Documents, nodes: map<string, ProviderNode>, contract: Contract, m: ModuleNode, children: set<string>)
    : map<string, ProviderReference>
  {
    map child | child in m.providerBindings && child in children && BindingClean(documents, nodes, contract, m, child) ::
      ProviderReference(nodes[m.providerBindings[child]].localName, nodes[m.providerBindings[child]].alias)
  }

  ghost predicate AllBound(documents: Documents, nodes: map<string, ProviderNode>, contract: Contract, m: ModuleNode, children: set<string>) {
    forall child :: child in m.providerBindings && child in children ==> BindingClean(documents, nodes, contract, m, child)
  }

  lemma {:induction false} BindingsStart(documents: Documents, nodes: map<string, ProviderNode>, contract: Contract, m: ModuleNode, all: set<string>)
    requires all == m.providerBindings.Keys
    ensures BindingsAmong(documents, nodes, contract, m, all - all) == map[] && AllBound(documents, nodes, contract, m, all - all)
    ensures BindingsAmong(documents, nodes, contract, m, all - {}) == CompiledBindings(documents, nodes, contract, m)
    ensures AllBound(documents, nodes, contract, m, all - {})
      <==> forall child :: child in m.providerBindings ==> BindingClean(documents, nodes, contract, m, child)
  {
    hide BindingClean;
  }

  lemma {:induction false} NextBinding(documents: Documents, nodes: map<string, ProviderNode>, contract: Contract, m: ModuleNode, children: set<string>, child: string)
    requires child in m.providerBindings
    ensures BindingsAmong(documents, nodes, contract, m, children + {child}) ==
      if BindingClean(documents, nodes, contract, m, child) then
        BindingsAmong(documents, nodes, contract, m, children)
          [child := ProviderReference(nodes[m.providerBindings[child]].localName, nodes[m.providerBindings[child]].alias)]
      else BindingsAmong(documents, nodes, contract, m, children)
    ensures AllBound(documents, nodes, contract, m, children + {child})
      <==> AllBound(documents, nodes, contract, m, children) && BindingClean(documents, nodes, contract, m, child)
  {
    hide Required, NormalizeProviderIdentity;
  }

  method BuildBindings(documents: Documents, nodes: map<string, ProviderNode>, contract: Contract, m: ModuleNode)
    returns (bindings: map<string, ProviderReference>, clean: bool)
    ensures bindings == CompiledBindings(documents, nodes, contract, m)
    ensures clean <==> forall child :: child in m.providerBindings ==> BindingClean(documents, nodes, contract, m, child)
  {
    hide BindingsAmong, AllBound, CompiledBindings, NormalizeProviderIdentity;
    bindings, clean := map[], true;
    var requiredProviders := TableOf(contract.requiredProviders, NameOfRequired);
    var all := m.providerBindings.Keys;
    var todo := all;
    BindingsStart(documents, nodes, contract, m, all);
    while todo != {}
      invariant todo <= all
      invariant bindings == BindingsAmong(documents, nodes, contract, m, all - todo)
      invariant clean <==> AllBound(documents, nodes, contract, m, all - todo)
    {
      var child :| child in todo;
      Visit(all, todo, child);
      NextBinding(documents, nodes, contract, m, all - todo, child);
      todo := todo - {child};
      if child !in requiredProviders {
        clean := false;
        continue;
      }
      var id := m.providerBindings[child];
      if id !in nodes || id !in documents.providers {
        clean := false;
        continue;
      }
      var document := documents.providers[id];
      if NormalizeProviderIdentity(requiredProviders[child].source) != document.providerNamespace + "/" + document.providerName {
        clean := false;
        continue;
      }
      bindings := bindings[child := ProviderReference(nodes[id].localName, nodes[id].alias)];
    }
    assert todo == {};
  }

  /** Nothing is rendered for a module whose contract is missing, unsupported or another one's. */
  method BuildModule(lib: Library, scope: Scope, nodes: map<string, ProviderNode>, documents: Documents, m: ModuleNode)
    returns (rendered: seq<RenderModule>, clean: bool)
    ensures clean <==> ModuleClean(lib, scope, nodes, documents, m)
    ensures clean ==> rendered == [CompiledModule(lib, scope, nodes, documents, m)]
  {
    hide SanitizeVersion, InputClean, BindingClean, RequiredInputGiven, MultiplicityClean, CompiledInputs, CompiledBindings, CountOf, ForEachOf;
    if m.nodeID !in documents.modules {
      return [], false;
    }
    var contract := documents.modules[m.nodeID];
    if contract.schemaVersion != CONTRACT_SCHEMA_VERSION || contract.grade == GRADE_UNSUPPORTED {
      return [], false;
    }
    if contract.namespace != m.namespace || contract.name != m.name || SanitizeVersion(contract.version) != SanitizeVersion(m.version) {
      return [], false;
    }
    var given := CheckRequiredInputs(contract, m);
    var inputs, resolved := BuildInputs(lib, scope, contract, m);
    var count, forEach, repeats := BuildMultiplicity(lib, scope, m.multiplicity);
    var bindings, bound := BuildBindings(documents, nodes, contract, m);
    clean := given && resolved && repeats && bound;
    rendered := [RenderModule(m.localName, contract.namespace, contract.name, contract.system, SanitizeVersion(contract.version),
      inputs, count, forEach, bindings)];
  }

  ghost predicate ModulesClean(lib: Library, scope: Scope, nodes: map<string, ProviderNode>, documents: Documents, ms: seq<ModuleNode>) {
    forall m :: m in ms ==> ModuleClean(lib, scope, nodes, documents, m)
  }

  ghost predicate RendersModules(lib: Library, scope: Scope, nodes: map<string, ProviderNode>, documents: Documents, ms: seq<ModuleNode>,
      rendered: seq<RenderModule>)
  {
    && |rendered| == |ms|
    && forall i :: 0 <= i < |ms| ==> ms[i].nodeID in documents.modules && rendered[i] == CompiledModule(lib, scope, nodes, documents, ms[i])
  }

  lemma {:induction false} NextRenderedModule(lib: Library, scope: Scope, nodes: map<string, ProviderNode>, documents: Documents, ms: seq<ModuleNode>,
      m: ModuleNode, rendered: seq<RenderModule>)
    requires RendersModules(lib, scope, nodes, documents, ms, rendered) && ModuleClean(lib, scope, nodes, documents, m)
    ensures m.nodeID in documents.modules
    ensures RendersModules(lib, scope, nodes, documents, ms + [m], rendered + [CompiledModule(lib, scope, nodes, documents, m)])
  {
    hide CompiledModule, ModuleClean;
    CleanModuleHasContract(lib, scope, nodes, documents, m);
  }

  lemma {:induction false} NextModuleClean(lib: Library, scope: Scope, nodes: map<string, ProviderNode>, documents: Documents, ms: seq<ModuleNode>, m: ModuleNode)
    ensures ModulesClean(lib, scope, nodes, documents, ms + [m])
      <==> ModulesClean(lib, scope, nodes, documents, ms) && ModuleClean(lib, scope, nodes, documents, m)
  {
    hide ModuleClean;
    forall u ensures u in ms + [m] <==> u in ms || u == m {}
  }

  lemma {:induction false} NoModules(lib: Library, scope: Scope, nodes: map<string, ProviderNode>, documents: Documents, ms: seq<ModuleNode>)
    ensures ModulesClean(lib, scope, nodes, documents, ms[..0]) && RendersModules(lib, scope, nodes, documents, ms[..0], [])
  {
  }

  method BuildModules(lib: Library, scope: Scope, nodes: map<string, ProviderNode>, documents: Documents, modules: seq<ModuleNode>)
    returns (rendered: seq<RenderModule>, clean: bool)
    ensures clean <==> ModulesClean(lib, scope, nodes, documents, modules)
    ensures clean ==> RendersModules(lib, scope, nodes, documents, modules, rendered)
  {
    hide ModulesClean, RendersModules, ModuleClean, CompiledModule;
    rendered, clean := [], true;
    NoModules(lib, scope, nodes, documents, modules);
    for i := 0 to |modules|
      invariant clean <==> ModulesClean(lib, scope, nodes, documents, modules[..i])
      invariant clean ==> RendersModules(lib, scope, nodes, documents, modules[..i], rendered)
    {
      var each, accepted := BuildModule(lib, scope, nodes, documents, modules[i]);
      NextModuleClean(lib, scope, nodes, documents, modules[..i], modules[i]);
      if clean && accepted {
        NextRenderedModule(lib, scope, nodes, documents, modules[..i], modules[i], rendered);
      }
      assert modules[..i + 1] == modules[..i] + [modules[i]];
      rendered, clean := rendered + each, clean && accepted;
    }
    assert modules[..|modules|] == modules;
  }

  lemma {:induction false} CleanModuleHasContract(lib: Library, scope: Scope, nodes: map<string, ProviderNode>, documents: Documents, m: ModuleNode)
    requires ModuleClean(lib, scope, nodes, documents, m)
    ensures m.nodeID in documents.modules
  {
  }

  // ------------------------------------------------------------------ the whole request

  /** What a request must satisfy to be built without a diagnostic. */
  ghost predicate Clean(lib: Library, request: Request, documents: Documents) {
    && request.schemaVersion == SCHEMA_VERSION
    && VariablesClean(lib, request.variables)
    && ModuleNamesClean(lib, request.modules)
    && ProviderNamesClean(lib, request.providers)
    && ProvidersClean(lib, ScopeOf(request), documents, request.providers)
    && ModulesClean(lib, ScopeOf(request), Table(request.providers, ProviderID), documents, request.modules)
  }

  /** `model` is the root module that `request` describes, node by node. */
  ghost predicate Compiles(lib: Library, request: Request, documents: Documents, host: string, model: RenderModel) {
    && model.registryHost == host
    && RendersVariables(lib, request.variables, model.variables)
    && RendersProviders(lib, ScopeOf(request), documents, request.providers, model.providers)
    && RendersModules(lib, ScopeOf(request), Table(request.providers, ProviderID), documents, request.modules, model.modules)
  }

  method BuildModel(lib: Library, request: Request, host: string, documents: Documents) returns (model: RenderModel, clean: bool)
    ensures clean <==> Clean(lib, request, documents)
    ensures clean ==> Compiles(lib, request, documents, host, model)
  {
    hide VariablesClean, ModuleNamesClean, ProviderNamesClean, ProvidersClean, ModulesClean, RendersVariables, RendersProviders, RendersModules;
    model := RenderModel(host, [], [], []);
    if request.schemaVersion != SCHEMA_VERSION {
      return model, false;
    }
    var variableNodes := TableOf(request.variables, VariableID);
    var localNames, variables, variablesClean := BuildVariables(lib, request.variables);
    var moduleNodes := TableOf(request.modules, ModuleID);
    KindsApart(request);
    var modulesNamed, providersNamed;
    localNames, modulesNamed := NameModules(lib, request.modules, localNames);
    var providerNodes := TableOf(request.providers, ProviderID);
    localNames, providersNamed := NameProviders(lib, request.providers, localNames);
    var scope := Scope(variableNodes, moduleNodes);
    var providers, providersClean := BuildProviders(lib, scope, documents, request.providers);
    var modules, modulesClean := BuildModules(lib, scope, providerNodes, documents, request.modules);
    model := RenderModel(host, variables, modules, providers);
    clean := variablesClean && modulesNamed && providersNamed && providersClean && modulesClean;
  }

  lemma {:induction false} KindsApart(request: Request)
    ensures NoneOfKind(MODULE, KeysTaken(VARIABLE, request.variables, NameOfVariable))
    ensures NoneOfKind(PROVIDER, KeysTaken(VARIABLE, request.variables, NameOfVariable) + KeysTaken(MODULE, request.modules, NameOfModule))
  {
    hide NameKey;
    forall a, b ensures NameKey(VARIABLE, a) != NameKey(MODULE, b) && NameKey(VARIABLE, a) != NameKey(PROVIDER, b) && NameKey(MODULE, a) != NameKey(PROVIDER, b) {
      NameKeysDiffer(a, b);
    }
  }
}
