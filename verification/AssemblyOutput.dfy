/**
  What the written files guarantee: they do not depend on the order in which the canvas lists its
  nodes, `required_providers` loses nothing, and it is known exactly which attributes survive.
 */
module AssemblyOutput {
  import opened Basics
  import opened Strings
  import opened Sorting
  import opened AssemblyTypes
  import opened References
  import opened ProviderConfig
  import opened AssemblyBuild
  import opened AssemblyRender
  import opened AssemblyLaws
  import TypePrinter
  import HclTokens

  // ------------------------------------------------------------------ required providers

  ghost predicate AllSettings(body: seq<Item>) {
    forall i :: 0 <= i < |body| ==> body[i].Setting?
  }

  /** No attribute is set twice. */
  ghost predicate SetOnce(body: seq<Item>) {
    forall i, j :: 0 <= i < j < |body| && body[i].Setting? && body[j].Setting? ==> body[i].name != body[j].name
  }

  /** The entry for a name is the requirement of some provider that uses it. */
  ghost predicate EntryOf(ps: seq<RenderProvider>, name: string, code: Option<Code>) {
    if SeenName(ps, name) then exists p :: p in ps && p.localName == name && code == Some(RequirementOf(p)) else code.None?
  }

  lemma {:induction false} AbsentValue(body: seq<Item>, name: string)
    ensures ValueIn(body, name).None? <==> forall i :: 0 <= i < |body| ==> body[i].Setting? ==> body[i].name != name
    decreases |body|
  {
    if body != [] {
      AbsentValue(body[1..], name);
      assert forall i :: 1 <= i < |body| ==> body[i] == body[1..][i - 1];
    }
  }

  /** Every local name is listed once, with the requirement of a provider that uses it. */
  lemma {:induction false} RequiredOnce(ps: seq<RenderProvider>)
    ensures var body := RequiredProviders(ps);
      AllSettings(body) && SetOnce(body) && forall n :: EntryOf(ps, n, ValueIn(body, n))
    decreases |ps|
  {
    hide SetAttribute, ValueIn, RequirementOf;
    if ps == [] {
      assert ValueIn([], "").None? by { AbsentValue([], ""); }
      forall n ensures EntryOf(ps, n, ValueIn(RequiredProviders(ps), n)) {
        AbsentValue([], n);
      }
    } else {
      var before, last := ps[..|ps| - 1], ps[|ps| - 1];
      RequiredOnce(before);
      assert ps == before + [last];
      var body := RequiredProviders(before);
      if !SeenName(before, last.localName) {
        assert EntryOf(before, last.localName, ValueIn(body, last.localName));
        AbsentValue(body, last.localName);
        SetNew(body, last.localName, RequirementOf(last));
      }
      forall n ensures EntryOf(ps, n, ValueIn(RequiredProviders(ps), n)) {
        EntryAfter(before, last, n);
      }
    }
  }

  lemma {:induction false} EntryAfter(before: seq<RenderProvider>, last: RenderProvider, n: string)
    requires EntryOf(before, n, ValueIn(RequiredProviders(before), n))
    ensures EntryOf(before + [last], n, ValueIn(RequiredProviders(before + [last]), n))
  {
    hide SetAttribute, ValueIn, RequirementOf, RequiredProviders;
    var ps := before + [last];
    NextRequired(before, last);
    assert forall p :: p in ps <==> p in before || p == last;
    if !SeenName(before, last.localName) {
      SetThenGet(RequiredProviders(before), last.localName, RequirementOf(last), n);
    }
    if SeenName(before, n) {
      var p :| p in before && p.localName == n && ValueIn(RequiredProviders(before), n) == Some(RequirementOf(p));
      assert p in ps;
    }
  }

  ghost predicate NothingLost(ps: seq<RenderProvider>) {
    forall p :: p in ps ==> ValueIn(RequiredProviders(ps), p.localName) == Some(RequirementOf(p))
  }

  /** Taking the first provider of every local name loses nothing exactly when providers that share a name need the same. */
  lemma {:induction false} FirstSeenSufficesIff(ps: seq<RenderProvider>)
    ensures NothingLost(ps) <==> forall p, q :: p in ps && q in ps && p.localName == q.localName ==> RequirementOf(p) == RequirementOf(q)
  {
    hide RequirementOf, RequiredProviders, ValueIn;
    RequiredOnce(ps);
    if forall p, q :: p in ps && q in ps && p.localName == q.localName ==> RequirementOf(p) == RequirementOf(q) {
      forall p | p in ps ensures ValueIn(RequiredProviders(ps), p.localName) == Some(RequirementOf(p)) {
        assert EntryOf(ps, p.localName, ValueIn(RequiredProviders(ps), p.localName));
      }
    }
  }

  /** Documents give one upstream identity for a namespace and name. */
  ghost predicate OneUpstream(documents: Documents) {
    forall a, b :: a in documents.providers && b in documents.providers ==>
      var d, e := documents.providers[a], documents.providers[b];
      d.namespace == e.namespace && d.name == e.name ==> d.providerNamespace == e.providerNamespace && d.providerName == e.providerName
  }

  ghost predicate PlainNames(documents: Documents) {
    forall a :: a in documents.providers ==> '/' !in documents.providers[a].namespace && '@' !in documents.providers[a].name
  }

  lemma {:induction false} SameRequirement(d: ProviderDocument, e: ProviderDocument)
    requires RequirementText(d) == RequirementText(e)
    requires '/' !in d.namespace && '/' !in e.namespace && '@' !in d.name && '@' !in e.name
    ensures d.namespace == e.namespace && d.name == e.name && d.version == e.version
  {
    assert RequirementText(d) == d.namespace + ['/'] + (d.name + ['@'] + d.version);
    assert RequirementText(e) == e.namespace + ['/'] + (e.name + ['@'] + e.version);
    SplitOnce(d.namespace, d.name + ['@'] + d.version, e.namespace, e.name + ['@'] + e.version, '/');
    SplitOnce(d.name, d.version, e.name, e.version, '@');
  }

  lemma {:induction false} SharedNameSharesRequirement(lib: Library, scope: Scope, documents: Documents, p: ProviderNode, q: ProviderNode)
    requires OneUpstream(documents) && PlainNames(documents)
    requires p.nodeID in documents.providers && q.nodeID in documents.providers
    requires p.localName == q.localName && Agree(documents, p, q)
    ensures RequirementOf(CompiledProvider(lib, scope, documents, p)) == RequirementOf(CompiledProvider(lib, scope, documents, q))
  {
    hide RequirementText, RenderedBlock;
    SameRequirement(documents.providers[p.nodeID], documents.providers[q.nodeID]);
  }

  /**
    In a build without diagnostics every local name has one entry in `required_providers`, and its source
    and version are those of every provider block that uses the name.
   */
  lemma {:induction false} RequiredProvidersLoseNothing(lib: Library, request: Request, documents: Documents, host: string, model: RenderModel)
    requires Clean(lib, request, documents) && Compiles(lib, request, documents, host, model)
    requires OneUpstream(documents) && PlainNames(documents)
    ensures var body := RequiredProviders(SortBy(model.providers, ProviderOrder));
      && AllSettings(body) && SetOnce(body)
      && (forall p :: p in model.providers ==> ValueIn(body, p.localName) == Some(Requirement(ProviderSource(p), SanitizeVersion(p.version))))
      && (forall n :: ValueIn(body, n).Some? ==> SeenName(model.providers, n))
  {
    hide SortBy, RequiredProviders, ValueIn, VariablesClean, ModuleNamesClean, ProviderNamesClean, ModulesClean, RendersVariables, RendersModules,
      OneUpstream, PlainNames, ProviderClean, CompiledProvider, SanitizeVersion, ScopeOf, ProviderSource;
    var ps := SortBy(model.providers, ProviderOrder);
    SameElements(ps, model.providers);
    forall p, q | p in ps && q in ps && p.localName == q.localName ensures RequirementOf(p) == RequirementOf(q) {
      var i, j :| 0 <= i < |model.providers| && 0 <= j < |model.providers| && model.providers[i] == p && model.providers[j] == q;
      NamedAsNode(lib, ScopeOf(request), documents, request.providers[i]);
      NamedAsNode(lib, ScopeOf(request), documents, request.providers[j]);
      assert request.providers[i] in request.providers && request.providers[j] in request.providers;
      SharedNameSharesRequirement(lib, ScopeOf(request), documents, request.providers[i], request.providers[j]);
    }
    FirstSeenSufficesIff(ps);
    RequiredOnce(ps);
    forall n | ValueIn(RequiredProviders(ps), n).Some? ensures SeenName(model.providers, n) {
      assert EntryOf(ps, n, ValueIn(RequiredProviders(ps), n));
    }
  }

  lemma {:induction false} NamedAsNode(lib: Library, scope: Scope, documents: Documents, p: ProviderNode)
    requires p.nodeID in documents.providers
    ensures CompiledProvider(lib, scope, documents, p).localName == p.localName
  {
  }

  // ------------------------------------------------------------------ which attributes survive

  lemma {:induction false} SetArgumentsValue(body: seq<Item>, names: seq<string>, values: map<string, Expression>, n: string)
    ensures ValueIn(SetArguments(body, names, values), n) ==
      if n in names && n in values then Some(Reference(values[n])) else ValueIn(body, n)
    decreases |names|
  {
    hide SetAttribute, ValueIn;
    if names != [] {
      var rest, last := names[..|names| - 1], names[|names| - 1];
      assert names == rest + [last];
      SetArgumentsValue(body, rest, values, n);
      if last in values {
        SetThenGet(SetArguments(body, rest, values), last, Reference(values[last]), n);
      }
    }
  }

  /** Every input is written; one whose name the block uses itself takes that attribute's place. */
  lemma {:induction false} ModuleAttributes(host: string, m: RenderModule, n: string)
    ensures ValueIn(ModuleBody(host, m), n) ==
      if n == "providers" && m.providerBindings != map[] then Some(Bindings(BindingsOf(m, Arranged(m.providerBindings.Keys))))
      else if n in m.inputs then Some(Reference(m.inputs[n]))
      else ValueIn(ModuleHeader(host, m), n)
  {
    hide SetAttribute, ValueIn, SetArguments, ModuleHeader, BindingsOf;
    SetArgumentsValue(ModuleHeader(host, m), Arranged(m.inputs.Keys), m.inputs, n);
    var body := SetArguments(ModuleHeader(host, m), Arranged(m.inputs.Keys), m.inputs);
    if m.providerBindings != map[] {
      SetThenGet(body, "providers", Bindings(BindingsOf(m, Arranged(m.providerBindings.Keys))), n);
    }
  }

  lemma {:induction false} ValueInParts(a: seq<Item>, b: seq<Item>, n: string)
    ensures ValueIn(a + b, n) == if ValueIn(a, n).Some? then ValueIn(a, n) else ValueIn(b, n)
    decreases |a|
  {
    if a == [] {
      assert a + b == b;
    } else {
      assert (a + b)[1..] == a[1..] + b;
      ValueInParts(a[1..], b, n);
    }
  }

  lemma {:induction false} HeaderValues(host: string, m: RenderModule)
    ensures ValueIn(ModuleHeader(host, m), "source") == Some(StringCode(ModuleSource(host, m)))
    ensures ValueIn(ModuleHeader(host, m), "version") == Some(StringCode("~> " + SanitizeVersion(m.version)))
  {
    hide ModuleSource, SanitizeVersion, Repetition;
    var source, version := Setting("source", StringCode(ModuleSource(host, m))), Setting("version", StringCode("~> " + SanitizeVersion(m.version)));
    var end := if m.inputs != map[] || m.providerBindings != map[] then [EmptyLine] else [];
    RepetitionSetsNeither(m);
    assert ModuleHeader(host, m) == Repetition(m) + ([source] + ([version] + end));
    ValueInParts(Repetition(m), [source] + ([version] + end), "source");
    ValueInParts(Repetition(m), [source] + ([version] + end), "version");
    ValueInParts([source], [version] + end, "source");
    ValueInParts([source], [version] + end, "version");
    ValueInParts([version], end, "version");
  }

  lemma {:induction false} RepetitionSetsNeither(m: RenderModule)
    ensures ValueIn(Repetition(m), "source").None? && ValueIn(Repetition(m), "version").None?
  {
    AbsentValue(Repetition(m), "source");
    AbsentValue(Repetition(m), "version");
  }

  /** A module block keeps its source and version exactly when no input is called `source` or `version`. */
  lemma {:induction false} IdentityKeptIff(host: string, m: RenderModule)
    ensures ValueIn(ModuleBody(host, m), "source") == Some(StringCode(ModuleSource(host, m))) <==> "source" !in m.inputs
    ensures ValueIn(ModuleBody(host, m), "version") == Some(StringCode("~> " + SanitizeVersion(m.version))) <==> "version" !in m.inputs
  {
    hide ModuleBody, ModuleHeader, ValueIn;
    ModuleAttributes(host, m, "source");
    ModuleAttributes(host, m, "version");
    HeaderValues(host, m);
  }

  lemma {:induction false} OnlyBlocks(block: RenderBlock, names: seq<string>, n: string)
    ensures ValueIn(NestedItems(block, names), n).None?
    decreases |names|
  {
    if names != [] {
      OnlyBlocks(block, names[..|names| - 1], n);
      AbsentValue(NamedItems(block, names[|names| - 1]), n);
      ValueInParts(NestedItems(block, names[..|names| - 1]), NamedItems(block, names[|names| - 1]), n);
    }
  }

  ghost function AliasItem(p: RenderProvider): seq<Item> {
    if p.alias != "" then [Setting("alias", StringCode(p.alias))] else []
  }

  lemma {:induction false} ProviderValue(p: RenderProvider, n: string)
    ensures ValueIn(ProviderBlock(p).body, n) ==
      if n in p.configuration.arguments then Some(Reference(p.configuration.arguments[n])) else ValueIn(AliasItem(p), n)
  {
    hide SetArguments, NestedItems, ValueIn, Ascending;
    var c := p.configuration;
    var names, blocks := Arranged(c.arguments.Keys), Arranged(c.blocks.Keys);
    SetArgumentsValue(AliasItem(p), names, c.arguments, n);
    OnlyBlocks(c, blocks, n);
    ValueInParts(SetArguments(AliasItem(p), names, c.arguments), NestedItems(c, blocks), n);
  }

  /** Every argument of a configuration is written; the alias is kept exactly when no argument is called `alias`. */
  lemma {:induction false} ProviderAttributes(p: RenderProvider)
    ensures forall n :: n in p.configuration.arguments ==> ValueIn(ProviderBlock(p).body, n) == Some(Reference(p.configuration.arguments[n]))
    ensures p.alias != "" ==>
      (ValueIn(ProviderBlock(p).body, "alias") == Some(StringCode(p.alias)) <==> "alias" !in p.configuration.arguments)
  {
    hide BlockItems, ValueIn;
    forall n | n in p.configuration.arguments ensures ValueIn(ProviderBlock(p).body, n) == Some(Reference(p.configuration.arguments[n])) {
      ProviderValue(p, n);
    }
    ProviderValue(p, "alias");
    if p.alias != "" { AliasValue(p); }
  }

  lemma {:induction false} AliasValue(p: RenderProvider)
    requires p.alias != ""
    ensures ValueIn(AliasItem(p), "alias") == Some(StringCode(p.alias))
  {
  }

  // ------------------------------------------------------------------ the blocks of the files

  datatype Head = Head(kind: string, labels: seq<string>)

  /** The top-level blocks of a file. */
  ghost function Heads(items: seq<Item>): seq<Head> {
    if items == [] then [] else HeadOf(items[0]) + Heads(items[1..])
  }

  ghost function HeadOf(item: Item): seq<Head> {
    if item.Block? then [Head(item.kind, item.labels)] else []
  }

  lemma {:induction false} HeadsOfParts(a: seq<Item>, b: seq<Item>)
    ensures Heads(a + b) == Heads(a) + Heads(b)
    decreases |a|
  {
    if a == [] {
      assert a + b == b;
    } else {
      hide HeadOf;
      var rest := a[1..];
      assert (a + b)[1..] == rest + b;
      HeadsOfParts(rest, b);
      assert Heads(a + b) == HeadOf(a[0]) + (Heads(rest) + Heads(b));
    }
  }

  ghost predicate AllBlocks(items: seq<Item>) {
    forall i :: 0 <= i < |items| ==> items[i].Block?
  }

  ghost function HeadsEach(items: seq<Item>): seq<Head>
    requires AllBlocks(items)
  {
    seq(|items|, i requires 0 <= i < |items| => Head(items[i].kind, items[i].labels))
  }

  lemma {:induction false} HeadsOfOne(item: Item)
    requires item.Block?
    ensures Heads([item, EmptyLine]) == [Head(item.kind, item.labels)]
    ensures Heads([item]) == [Head(item.kind, item.labels)]
  {
    assert [item, EmptyLine][1..] == [EmptyLine];
    assert Heads([EmptyLine]) == [];
    assert [item][1..] == [];
  }

  lemma {:induction false} HeadsSpaced(items: seq<Item>)
    requires AllBlocks(items)
    ensures Heads(Spaced(items)) == HeadsEach(items)
    decreases |items|
  {
    hide Heads;
    if items == [] {
      assert Heads([]) == [] by { HeadsOfNone(); }
    } else {
      var rest, last := items[..|items| - 1], items[|items| - 1];
      HeadsSpaced(rest);
      HeadsOfParts(Spaced(rest), [last, EmptyLine]);
      HeadsOfOne(last);
      assert HeadsEach(items) == HeadsEach(rest) + [Head(last.kind, last.labels)];
    }
  }

  lemma {:induction false} HeadsOfNone()
    ensures Heads([]) == []
  {
  }

  lemma {:induction false} HeadsSeparated(items: seq<Item>)
    requires AllBlocks(items)
    ensures Heads(Separated(items)) == HeadsEach(items)
    decreases |items|
  {
    hide Heads;
    if items == [] {
      HeadsOfNone();
    } else if |items| == 1 {
      HeadsOfOne(items[0]);
      assert items == [items[0]];
    } else {
      HeadsSeparated(items[1..]);
      HeadsOfParts([items[0], EmptyLine], Separated(items[1..]));
      HeadsOfOne(items[0]);
      assert HeadsEach(items) == [Head(items[0].kind, items[0].labels)] + HeadsEach(items[1..]);
    }
  }

  ghost function Labelled<T>(kind: string, xs: seq<T>, title: T -> string): seq<Head> {
    seq(|xs|, i requires 0 <= i < |xs| => Head(kind, [title(xs[i])]))
  }

  function NameOfRenderProvider(p: RenderProvider): string { p.localName }

  /** The files hold exactly one block per variable, provider configuration and module, in the order of their names. */
  lemma {:induction false} FilesDefineTheModel(lib: Library, accepts: Reader, model: RenderModel)
    requires RenderedFiles(lib, accepts, model).Some?
    ensures var files := RenderedFiles(lib, accepts, model).value;
      && Heads(files.variables) == Labelled("variable", SortBy(model.variables, NameOfRenderVariable), NameOfRenderVariable)
      && Heads(files.main) ==
        (if model.providers == [] then [] else [Head("terraform", [])])
        + Labelled("provider", SortBy(model.providers, ProviderOrder), NameOfRenderProvider)
        + Labelled("module", SortBy(model.modules, NameOfRenderModule), NameOfRenderModule)
  {
    hide Heads, SortBy, VariableReads, MainReads, RequiredProviders, ModuleBody, BlockItems, Spaced, Separated;
    var vs, ps, ms := SortBy(model.variables, NameOfRenderVariable), SortBy(model.providers, ProviderOrder), SortBy(model.modules, NameOfRenderModule);
    HeadsSpaced(VariableBlocks(lib, vs));
    assert HeadsEach(VariableBlocks(lib, vs)) == Labelled("variable", vs, NameOfRenderVariable);
    HeadsSpaced(ProviderBlocks(ps));
    assert HeadsEach(ProviderBlocks(ps)) == Labelled("provider", ps, NameOfRenderProvider);
    HeadsSeparated(ModuleBlocks(model.registryHost, ms));
    assert HeadsEach(ModuleBlocks(model.registryHost, ms)) == Labelled("module", ms, NameOfRenderModule);
    HeadsOfNone();
    if ps != [] {
      HeadsOfOne(Block("terraform", [], [Block("required_providers", [], RequiredProviders(ps))]));
    }
    HeadsOfParts(TerraformBlock(ps), Spaced(ProviderBlocks(ps)));
    HeadsOfParts(TerraformBlock(ps) + Spaced(ProviderBlocks(ps)), Separated(ModuleBlocks(model.registryHost, ms)));
  }

  // ------------------------------------------------------------------ a clean request that cannot be written

  /** A variable without diagnostics can be written exactly when neither its type nor its default is misread. */
  lemma {:induction false} CleanVariableReadsIff(lib: Library, v: VariableNode)
    requires VariableClean(lib, v)
    ensures VariableReads(lib, CompiledVariable(lib, v)) <==>
      !TypePrinter.TypeMisread(lib, v.t) && (v.hasDefault ==> !ValuePrinter.Misread(lib, v.t, v.default))
  {
    hide HclTokens.Print, HclTokens.ReadExpr, HclTokens.Readable, TypePrinter.TypeText, ValuePrinter.ValueText,
      TypePrinter.TypeMisread, ValuePrinter.Misread, TrimLeft, TrimRight;
    TypePrinter.TypeRoundTrip(lib, v.t);
    if v.hasDefault {
      ValuePrinter.ValueReadableIff(lib, v.t, v.default);
      HclTokens.ReadPrinted(lib, ValuePrinter.ValueText(lib, v.t, v.default).value);
    }
  }

  // ------------------------------------------------------------------ canonical output

  /** The same nodes listed in another order. */
  ghost predicate Reordered(r: Request, s: Request) {
    && r.schemaVersion == s.schemaVersion
    && multiset(r.variables) == multiset(s.variables)
    && multiset(r.modules) == multiset(s.modules)
    && multiset(r.providers) == multiset(s.providers)
  }

  ghost predicate DistinctIDs(r: Request) {
    DistinctKeys(r.variables, VariableID) && DistinctKeys(r.modules, ModuleID) && DistinctKeys(r.providers, ProviderID)
  }

  lemma {:induction false} SameScope(r: Request, s: Request)
    requires Reordered(r, s) && DistinctIDs(r)
    ensures ScopeOf(r) == ScopeOf(s) && Table(r.providers, ProviderID) == Table(s.providers, ProviderID)
    ensures forall v :: v in r.variables <==> v in s.variables
    ensures forall m :: m in r.modules <==> m in s.modules
    ensures forall p :: p in r.providers <==> p in s.providers
  {
    TableReordered(r.variables, s.variables, VariableID);
    TableReordered(r.modules, s.modules, ModuleID);
    TableReordered(r.providers, s.providers, ProviderID);
    SameElements(r.variables, s.variables);
    SameElements(r.modules, s.modules);
    SameElements(r.providers, s.providers);
  }

  lemma {:induction false} StaysClean(lib: Library, r: Request, s: Request, documents: Documents)
    requires Reordered(r, s) && DistinctIDs(r) && Clean(lib, r, documents)
    ensures Clean(lib, s, documents)
  {
    hide VariableClean, ProviderClean, ModuleClean, ProviderNameClean, Agree, DistinctKeys, ScopeOf;
    SameScope(r, s);
    DistinctUnderReordering(r.variables, s.variables, NameOfVariable);
    DistinctUnderReordering(r.modules, s.modules, NameOfModule);
    DistinctUnderReordering(r.providers, s.providers, ConfigurationKey);
  }

  /** Two models with the same parts. */
  ghost predicate SameParts(model: RenderModel, other: RenderModel) {
    && model.registryHost == other.registryHost
    && (forall v :: v in model.variables <==> v in other.variables)
    && (forall m :: m in model.modules <==> m in other.modules)
    && (forall p :: p in model.providers <==> p in other.providers)
  }

  lemma {:induction false} VariablesCovered(lib: Library, vs: seq<VariableNode>, us: seq<VariableNode>, rendered: seq<RenderVariable>, others: seq<RenderVariable>)
    requires RendersVariables(lib, vs, rendered) && RendersVariables(lib, us, others) && forall v :: v in vs ==> v in us
    ensures forall v :: v in rendered ==> v in others
  {
    hide VariableClean, CompiledVariable;
    forall v | v in rendered ensures v in others {
      var i :| 0 <= i < |vs| && v == rendered[i];
      assert vs[i] in us;
      var j :| 0 <= j < |us| && us[j] == vs[i];
      assert v == others[j];
    }
  }

  lemma {:induction false} ModulesCovered(lib: Library, scope: Scope, nodes: map<string, ProviderNode>, documents: Documents,
      ms: seq<ModuleNode>, us: seq<ModuleNode>, rendered: seq<RenderModule>, others: seq<RenderModule>)
    requires RendersModules(lib, scope, nodes, documents, ms, rendered) && RendersModules(lib, scope, nodes, documents, us, others)
    requires forall m :: m in ms ==> m in us
    ensures forall m :: m in rendered ==> m in others
  {
    hide CompiledModule;
    forall m | m in rendered ensures m in others {
      var i :| 0 <= i < |ms| && m == rendered[i];
      assert ms[i] in us;
      var j :| 0 <= j < |us| && us[j] == ms[i];
      assert m == others[j];
    }
  }

  lemma {:induction false} ProvidersCovered(lib: Library, scope: Scope, documents: Documents,
      ps: seq<ProviderNode>, us: seq<ProviderNode>, rendered: seq<RenderProvider>, others: seq<RenderProvider>)
    requires RendersProviders(lib, scope, documents, ps, rendered) && RendersProviders(lib, scope, documents, us, others)
    requires forall p :: p in ps ==> p in us
    ensures forall p :: p in rendered ==> p in others
  {
    hide CompiledProvider;
    forall p | p in rendered ensures p in others {
      var i :| 0 <= i < |ps| && p == rendered[i];
      assert ps[i] in us;
      var j :| 0 <= j < |us| && us[j] == ps[i];
      assert p == others[j];
    }
  }

  lemma {:induction false} PartsCovered(lib: Library, r: Request, s: Request, documents: Documents, host: string, model: RenderModel, other: RenderModel)
    requires Reordered(r, s) && DistinctIDs(r)
    requires Compiles(lib, r, documents, host, model) && Compiles(lib, s, documents, host, other)
    ensures forall v :: v in model.variables ==> v in other.variables
    ensures forall m :: m in model.modules ==> m in other.modules
    ensures forall p :: p in model.providers ==> p in other.providers
  {
    hide RendersVariables, RendersModules, RendersProviders, ScopeOf, Reordered, DistinctIDs;
    SameScope(r, s);
    VariablesCovered(lib, r.variables, s.variables, model.variables, other.variables);
    ModulesCovered(lib, ScopeOf(r), Table(r.providers, ProviderID), documents, r.modules, s.modules, model.modules, other.modules);
    ProvidersCovered(lib, ScopeOf(r), documents, r.providers, s.providers, model.providers, other.providers);
  }

  lemma {:induction false} DistinctBlocks(model: RenderModel)
    requires NamesDistinct(model)
    ensures DistinctKeys(model.variables, NameOfRenderVariable)
    ensures DistinctKeys(model.modules, NameOfRenderModule)
    ensures DistinctKeys(model.providers, ProviderOrder)
  {
    hide PairKey;
    forall i, j | 0 <= i < j < |model.providers| ensures ProviderOrder(model.providers[i]) != ProviderOrder(model.providers[j]) {
      PairKeyOrder(model.providers[i].localName, model.providers[i].alias, model.providers[j].localName, model.providers[j].alias);
    }
  }

  lemma {:induction false} SameFiles(lib: Library, accepts: Reader, model: RenderModel, other: RenderModel)
    requires SameParts(model, other) && NamesDistinct(model) && NamesDistinct(other)
    ensures RenderedFiles(lib, accepts, model) == RenderedFiles(lib, accepts, other)
  {
    hide SortBy, DistinctKeys, NamesDistinct, VariableReads, BlockReads, ModuleReads, MainFile, VariableBlocks;
    DistinctBlocks(model);
    DistinctBlocks(other);
    SortForgetsOrder(model.variables, other.variables, NameOfRenderVariable);
    SortForgetsOrder(model.modules, other.modules, NameOfRenderModule);
    SortForgetsOrder(model.providers, other.providers, ProviderOrder);
  }

  /** Listing the nodes of a request in another order changes neither whether it builds nor the files. */
  lemma {:induction false} OutputIsCanonical(lib: Library, accepts: Reader, r: Request, s: Request, documents: Documents, host: string,
      model: RenderModel, other: RenderModel)
    requires Reordered(r, s) && DistinctIDs(r)
    ensures Clean(lib, r, documents) <==> Clean(lib, s, documents)
    ensures Clean(lib, r, documents) && Compiles(lib, r, documents, host, model) && Compiles(lib, s, documents, host, other) ==>
      RenderedFiles(lib, accepts, model) == RenderedFiles(lib, accepts, other)
  {
    hide Clean, Compiles, RenderedFiles, NamesDistinct;
    IDsStayDistinct(r, s);
    if Clean(lib, s, documents) {
      StaysClean(lib, s, r, documents);
    }
    if Clean(lib, r, documents) {
      StaysClean(lib, r, s, documents);
      if Compiles(lib, r, documents, host, model) && Compiles(lib, s, documents, host, other) {
        PartsCovered(lib, r, s, documents, host, model, other);
        PartsCovered(lib, s, r, documents, host, other, model);
        HostsAgree(lib, r, documents, host, model);
        HostsAgree(lib, s, documents, host, other);
        CleanBuildIsClosed(lib, r, documents, host, model);
        CleanBuildIsClosed(lib, s, documents, host, other);
        SameFiles(lib, accepts, model, other);
      }
    }
  }

  lemma {:induction false} HostsAgree(lib: Library, r: Request, documents: Documents, host: string, model: RenderModel)
    requires Compiles(lib, r, documents, host, model)
    ensures model.registryHost == host
  {
  }

  lemma {:induction false} IDsStayDistinct(r: Request, s: Request)
    requires Reordered(r, s) && DistinctIDs(r)
    ensures Reordered(s, r) && DistinctIDs(s)
  {
    hide DistinctKeys;
    DistinctUnderReordering(r.variables, s.variables, VariableID);
    DistinctUnderReordering(r.modules, s.modules, ModuleID);
    DistinctUnderReordering(r.providers, s.providers, ProviderID);
  }
}
