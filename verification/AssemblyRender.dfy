/**
  Writing the files of an Assembly: sorted copies of the model's parts are appended, block by block,
  to the body of a file. Setting an attribute that a body already has replaces it in place.
 */
module AssemblyRender {
  import opened Basics
  import opened Strings
  import opened Sorting
  import opened AssemblyTypes
  import opened HclTokens
  import ValuePrinter
  import opened AssemblyBuild
  import opened References
  import opened ProviderConfig

  datatype Code =
    | Syntax(a: Ast)
    | Source(text: string)
    | StringCode(text: string)
    | Reference(e: Expression)
    | Requirement(source: string, version: string)
    | Bindings(each: seq<Binding>)

  datatype Binding = Binding(child: string, to: ProviderReference)

  datatype Item =
    | Setting(name: string, code: Code)
    | Block(kind: string, labels: seq<string>, body: seq<Item>)
    | EmptyLine

  datatype Files = Files(main: seq<Item>, variables: seq<Item>)

  // ------------------------------------------------------------------ bodies

  function SetAttribute(body: seq<Item>, name: string, code: Code): seq<Item> {
    if body == [] then [Setting(name, code)]
    else if body[0].Setting? && body[0].name == name then [Setting(name, code)] + body[1..]
    else [body[0]] + SetAttribute(body[1..], name, code)
  }

  /** The value a body gives to an attribute. */
  function ValueIn(body: seq<Item>, name: string): Option<Code> {
    if body == [] then None
    else if body[0].Setting? && body[0].name == name then Some(body[0].code)
    else ValueIn(body[1..], name)
  }

  lemma {:induction false} SetThenGet(body: seq<Item>, name: string, code: Code, other: string)
    ensures ValueIn(SetAttribute(body, name, code), other) == if other == name then Some(code) else ValueIn(body, other)
    decreases |body|
  {
    if body != [] {
      SetThenGet(body[1..], name, code, other);
    }
  }

  /** The library reads the text of syntax that the compiler laid out. */
  predicate Reads(lib: Library, a: Ast) {
    ReadExpr(lib, Print(a)).Some?
  }

  // ------------------------------------------------------------------ variables

  predicate IsObjectCall(a: Ast) {
    a.Call? && a.name == "object"
  }

  predicate IsComplexVariableType(lib: Library, t: Ast) {
    match ReadExpr(lib, Print(t))
    case None => false
    case Some(a) => IsObjectCall(a) || (a.Call? && a.name == "map" && |a.args| == 1 && IsObjectCall(a.args[0]))
  }

  predicate VariableReads(lib: Library, v: RenderVariable) {
    && Reads(lib, v.t)
    && (v.default.Some? ==> Reads(lib, v.default.value))
    && forall i :: 0 <= i < |v.validations| ==> lib.validExpression(v.validations[i].condition)
  }

  function DefaultItem(v: RenderVariable): seq<Item> {
    if v.default.Some? then [Setting("default", Syntax(v.default.value))] else []
  }

  function DescriptionItem(v: RenderVariable): seq<Item> {
    if v.description != "" then [Setting("description", StringCode(v.description))] else []
  }

  function ValidationBlock(v: Validation): Item {
    Block("validation", [], [Setting("condition", Source(v.condition)), Setting("error_message", StringCode(v.errorMessage))])
  }

  function ValidationBlocks(vs: seq<Validation>): seq<Item> {
    seq(|vs|, i requires 0 <= i < |vs| => ValidationBlock(vs[i]))
  }

  /** Types that take several lines come last. */
  function VariableBlock(lib: Library, v: RenderVariable): Item {
    var t := [Setting("type", Syntax(v.t))];
    var fields := if IsComplexVariableType(lib, v.t) then DefaultItem(v) + DescriptionItem(v) + t else t + DefaultItem(v) + DescriptionItem(v);
    Block("variable", [v.name], fields + ValidationBlocks(v.validations))
  }

  function NameOfRenderVariable(v: RenderVariable): string { v.name }

  /** Every item followed by an empty line. */
  function Spaced(items: seq<Item>): seq<Item> {
    if items == [] then [] else Spaced(items[..|items| - 1]) + [items[|items| - 1], EmptyLine]
  }

  function VariableBlocks(lib: Library, vs: seq<RenderVariable>): seq<Item> {
    seq(|vs|, i requires 0 <= i < |vs| => VariableBlock(lib, vs[i]))
  }

  function VariablesFile(lib: Library, vs: seq<RenderVariable>): Option<seq<Item>> {
    if forall v :: v in vs ==> VariableReads(lib, v) then Some(Spaced(VariableBlocks(lib, SortBy(vs, NameOfRenderVariable)))) else None
  }

  method RenderVariables(lib: Library, variables: seq<RenderVariable>) returns (r: Option<seq<Item>>)
    ensures r == VariablesFile(lib, variables)
  {
    hide VariableReads, VariableBlock, SortBy, Spaced;
    var body: seq<Item> := [];
    SpacedNone();
    var sorted := SortBy(variables, NameOfRenderVariable);
    SameElements(sorted, variables);
    assert VariableBlocks(lib, sorted[..0]) == [];
    for i := 0 to |sorted|
      invariant body == Spaced(VariableBlocks(lib, sorted[..i]))
      invariant forall j :: 0 <= j < i ==> VariableReads(lib, sorted[j])
    {
      var block := RenderOneVariable(lib, sorted[i]);
      if block.None? {
        assert sorted[i] in variables;
        return None;
      }
      NextSpaced(VariableBlocks(lib, sorted[..i]), block.value);
      assert VariableBlocks(lib, sorted[..i + 1]) == VariableBlocks(lib, sorted[..i]) + [block.value];
      body := body + [block.value] + [EmptyLine];
    }
    assert sorted[..|sorted|] == sorted;
    forall v | v in variables ensures VariableReads(lib, v) {
      assert v in sorted;
    }
    return Some(body);
  }

  lemma {:induction false} SpacedNone()
    ensures Spaced([]) == []
  {
  }

  lemma {:induction false} NextSpaced(items: seq<Item>, item: Item)
    ensures Spaced(items + [item]) == Spaced(items) + [item] + [EmptyLine]
  {
    assert (items + [item])[..|items|] == items;
  }

  method RenderOneVariable(lib: Library, v: RenderVariable) returns (r: Option<Item>)
    ensures r == if VariableReads(lib, v) then Some(VariableBlock(lib, v)) else None
  {
    hide Print, ReadExpr;
    var body: seq<Item> := [];
    if !Reads(lib, v.t) || (v.default.Some? && !Reads(lib, v.default.value)) {
      return None;
    }
    if IsComplexVariableType(lib, v.t) {
      if v.default.Some? {
        body := SetAttribute(body, "default", Syntax(v.default.value));
      }
      assert body == DefaultItem(v);
      if v.description != "" {
        SetNew(body, "description", StringCode(v.description));
        body := SetAttribute(body, "description", StringCode(v.description));
      }
      assert body == DefaultItem(v) + DescriptionItem(v);
      SetNew(body, "type", Syntax(v.t));
      body := SetAttribute(body, "type", Syntax(v.t));
    } else {
      body := SetAttribute(body, "type", Syntax(v.t));
      assert body == [Setting("type", Syntax(v.t))];
      if v.default.Some? {
        SetNew(body, "default", Syntax(v.default.value));
        body := SetAttribute(body, "default", Syntax(v.default.value));
      }
      assert body == [Setting("type", Syntax(v.t))] + DefaultItem(v);
      if v.description != "" {
        SetNew(body, "description", StringCode(v.description));
        body := SetAttribute(body, "description", StringCode(v.description));
      }
      assert body == [Setting("type", Syntax(v.t))] + DefaultItem(v) + DescriptionItem(v);
    }
    ghost var fields := body;
    for i := 0 to |v.validations|
      invariant body == fields + ValidationBlocks(v.validations[..i])
      invariant forall j :: 0 <= j < i ==> lib.validExpression(v.validations[j].condition)
    {
      if !lib.validExpression(v.validations[i].condition) {
        return None;
      }
      assert ValidationBlocks(v.validations[..i + 1]) == ValidationBlocks(v.validations[..i]) + [ValidationBlock(v.validations[i])];
      body := body + [ValidationBlock(v.validations[i])];
    }
    assert v.validations[..|v.validations|] == v.validations;
    return Some(Block("variable", [v.name], body));
  }

  /** Setting an attribute the body does not have appends it. */
  lemma {:induction false} SetNew(body: seq<Item>, name: string, code: Code)
    requires forall i :: 0 <= i < |body| ==> body[i].Setting? ==> body[i].name != name
    ensures SetAttribute(body, name, code) == body + [Setting(name, code)]
    decreases |body|
  {
    if body != [] {
      SetNew(body[1..], name, code);
    }
  }

  // ------------------------------------------------------------------ provider blocks

  /** Whether the library reads the text of an emitted expression. */
  type Reader = Expression -> bool

  ghost function SetArguments(body: seq<Item>, names: seq<string>, values: map<string, Expression>): seq<Item>
    decreases |names|
  {
    if names == [] then body
    else
      var last, before := names[|names| - 1], SetArguments(body, names[..|names| - 1], values);
      if last in values then SetAttribute(before, last, Reference(values[last])) else before
  }

  lemma {:induction false} NextArgument(body: seq<Item>, names: seq<string>, name: string, values: map<string, Expression>)
    requires name in values
    ensures SetArguments(body, names + [name], values) == SetAttribute(SetArguments(body, names, values), name, Reference(values[name]))
  {
    assert (names + [name])[..|names|] == names;
  }

  predicate ArgumentsRead(accepts: Reader, values: map<string, Expression>) {
    forall n :: n in values ==> accepts(values[n])
  }

  /** The values under the given names all read. */
  ghost predicate ReadSoFar(accepts: Reader, values: map<string, Expression>, names: seq<string>) {
    forall n :: n in names && n in values ==> accepts(values[n])
  }

  lemma {:induction false} StartArguments(accepts: Reader, body: seq<Item>, names: seq<string>, values: map<string, Expression>)
    requires forall n :: n in names <==> n in values
    ensures SetArguments(body, names[..0], values) == body && ReadSoFar(accepts, values, names[..0])
    ensures ReadSoFar(accepts, values, names) <==> ArgumentsRead(accepts, values)
  {
  }

  lemma {:induction false} NextRead(accepts: Reader, values: map<string, Expression>, names: seq<string>, name: string)
    requires name in values
    ensures ReadSoFar(accepts, values, names + [name]) <==> ReadSoFar(accepts, values, names) && accepts(values[name])
  {
  }

  lemma {:induction false} UnreadArgument(accepts: Reader, values: map<string, Expression>, name: string)
    requires name in values && !accepts(values[name])
    ensures !ArgumentsRead(accepts, values)
  {
  }

  method WriteArguments(accepts: Reader, before: seq<Item>, values: map<string, Expression>) returns (r: Option<seq<Item>>)
    ensures r == if ArgumentsRead(accepts, values) then Some(SetArguments(before, Arranged(values.Keys), values)) else None
  {
    hide SetAttribute, SetArguments, Ascending, ReadSoFar, ArgumentsRead, SortBy;
    var body := before;
    var names := SortedKeys(values);
    StartArguments(accepts, before, names, values);
    for i := 0 to |names|
      invariant body == SetArguments(before, names[..i], values)
      invariant ReadSoFar(accepts, values, names[..i])
    {
      var name := names[i];
      assert name in names;
      if !accepts(values[name]) {
        UnreadArgument(accepts, values, name);
        return None;
      }
      NextArgument(before, names[..i], name, values);
      NextRead(accepts, values, names[..i], name);
      assert names[..i + 1] == names[..i] + [name];
      body := SetAttribute(body, name, Reference(values[name]));
    }
    assert names[..|names|] == names;
    return Some(body);
  }

  predicate BlockReads(accepts: Reader, block: RenderBlock) {
    && ArgumentsRead(accepts, block.arguments)
    && forall n :: n in block.blocks ==> forall i :: 0 <= i < |RenderedNamed(block, n)| ==> BlockReads(accepts, RenderedNamed(block, n)[i])
  }

  /** The body extended by the arguments and the nested blocks, both in ascending order of their names. */
  ghost function BlockItems(body: seq<Item>, block: RenderBlock): seq<Item>
    decreases block, 2
  {
    SetArguments(body, Arranged(block.arguments.Keys), block.arguments) + NestedItems(block, Arranged(block.blocks.Keys))
  }

  ghost function NestedItems(block: RenderBlock, names: seq<string>): seq<Item>
    decreases block, 1, |names|
  {
    if names == [] then []
    else NestedItems(block, names[..|names| - 1]) + NamedItems(block, names[|names| - 1])
  }

  ghost function NamedItems(block: RenderBlock, name: string): seq<Item>
    decreases block, 0
  {
    var each := RenderedNamed(block, name);
    seq(|each|, i requires 0 <= i < |each| => Block(name, [], BlockItems([], each[i])))
  }

  method AppendRenderBlock(accepts: Reader, before: seq<Item>, block: RenderBlock) returns (r: Option<seq<Item>>)
    ensures r == if BlockReads(accepts, block) then Some(BlockItems(before, block)) else None
    decreases block, 2
  {
    hide SetArguments, ArgumentsRead, NestedItems, BlockReads;
    var arguments := WriteArguments(accepts, before, block.arguments);
    if arguments.None? {
      UnreadBlock(accepts, block);
      return None;
    }
    r := AppendNested(accepts, arguments.value, block);
  }

  method AppendNested(accepts: Reader, before: seq<Item>, block: RenderBlock) returns (r: Option<seq<Item>>)
    requires ArgumentsRead(accepts, block.arguments)
    ensures r == if BlockReads(accepts, block) then Some(before + NestedItems(block, Arranged(block.blocks.Keys))) else None
    decreases block, 1
  {
    hide NamedItems, NestedItems, BlockItems, BlockReads, NamedRead, NestedRead, Ascending, ArgumentsRead, RenderedNamed, SortBy;
    var body := before;
    var names := SortedKeys(block.blocks);
    StartNested(accepts, block, names);
    for i := 0 to |names|
      invariant body == before + NestedItems(block, names[..i])
      invariant NestedRead(accepts, block, names[..i])
    {
      assert names[i] in names;
      var nested := NamedBlocks(accepts, block, names[i]);
      if nested.None? {
        UnreadNested(accepts, block, names[i]);
        return None;
      }
      NextNested(accepts, block, names[..i], names[i]);
      assert names[..i + 1] == names[..i] + [names[i]];
      body := body + nested.value;
    }
    assert names[..|names|] == names;
    return Some(body);
  }

  ghost predicate NestedRead(accepts: Reader, block: RenderBlock, names: seq<string>) {
    forall n :: n in names ==> NamedRead(accepts, block, n)
  }

  lemma {:induction false} StartNested(accepts: Reader, block: RenderBlock, names: seq<string>)
    requires ArgumentsRead(accepts, block.arguments) && forall n :: n in names <==> n in block.blocks
    ensures NestedItems(block, names[..0]) == [] && NestedRead(accepts, block, names[..0])
    ensures NestedRead(accepts, block, names) <==> BlockReads(accepts, block)
  {
  }

  lemma {:induction false} NextNested(accepts: Reader, block: RenderBlock, names: seq<string>, name: string)
    ensures NestedItems(block, names + [name]) == NestedItems(block, names) + NamedItems(block, name)
    ensures NestedRead(accepts, block, names + [name]) <==> NestedRead(accepts, block, names) && NamedRead(accepts, block, name)
  {
    hide NamedRead, NamedItems;
    assert (names + [name])[..|names|] == names;
    assert forall n :: n in names + [name] <==> n in names || n == name;
  }

  lemma {:induction false} UnreadNested(accepts: Reader, block: RenderBlock, name: string)
    requires name in block.blocks && !NamedRead(accepts, block, name)
    ensures !BlockReads(accepts, block)
  {
  }

  lemma {:induction false} UnreadBlock(accepts: Reader, block: RenderBlock)
    requires !ArgumentsRead(accepts, block.arguments)
    ensures !BlockReads(accepts, block)
  {
  }

  predicate NamedRead(accepts: Reader, block: RenderBlock, name: string) {
    forall i :: 0 <= i < |RenderedNamed(block, name)| ==> BlockReads(accepts, RenderedNamed(block, name)[i])
  }

  method NamedBlocks(accepts: Reader, block: RenderBlock, name: string) returns (r: Option<seq<Item>>)
    requires name in block.blocks
    ensures r == if NamedRead(accepts, block, name) then Some(NamedItems(block, name)) else None
    decreases block, 0
  {
    hide BlockItems, BlockReads;
    var each := RenderedNamed(block, name);
    var items: seq<Item> := [];
    for i := 0 to |each|
      invariant |items| == i && forall j :: 0 <= j < i ==> items[j] == Block(name, [], BlockItems([], each[j]))
      invariant forall j :: 0 <= j < i ==> BlockReads(accepts, each[j])
    {
      var child := AppendRenderBlock(accepts, [], each[i]);
      if child.None? {
        return None;
      }
      items := items + [Block(name, [], child.value)];
    }
    assert items == NamedItems(block, name);
    return Some(items);
  }

  ghost function ProviderBlock(p: RenderProvider): Item {
    Block("provider", [p.localName], BlockItems(if p.alias != "" then [Setting("alias", StringCode(p.alias))] else [], p.configuration))
  }

  function ProviderSource(p: RenderProvider): string {
    p.providerNamespace + "/" + p.providerName
  }

  function RequirementOf(p: RenderProvider): Code {
    Requirement(ProviderSource(p), SanitizeVersion(p.version))
  }

  ghost predicate SeenName(ps: seq<RenderProvider>, name: string) {
    exists p :: p in ps && p.localName == name
  }

  /** One entry for every local name, taken from the first provider that uses it. */
  ghost function RequiredProviders(ps: seq<RenderProvider>): seq<Item>
    decreases |ps|
  {
    if ps == [] then []
    else
      var before, last := ps[..|ps| - 1], ps[|ps| - 1];
      if SeenName(before, last.localName) then RequiredProviders(before)
      else SetAttribute(RequiredProviders(before), last.localName, RequirementOf(last))
  }

  lemma {:induction false} NextRequired(ps: seq<RenderProvider>, p: RenderProvider)
    ensures RequiredProviders(ps + [p]) ==
      if SeenName(ps, p.localName) then RequiredProviders(ps) else SetAttribute(RequiredProviders(ps), p.localName, RequirementOf(p))
  {
    assert (ps + [p])[..|ps|] == ps;
  }

  method WriteRequiredProviders(providers: seq<RenderProvider>) returns (body: seq<Item>)
    ensures body == RequiredProviders(providers)
  {
    hide RequiredProviders, SetAttribute, SanitizeVersion;
    body := [];
    NoneRequired(providers);
    var seen: set<string> := {};
    for i := 0 to |providers|
      invariant body == RequiredProviders(providers[..i])
      invariant forall n :: n in seen <==> SeenName(providers[..i], n)
    {
      var provider := providers[i];
      NextRequired(providers[..i], provider);
      assert providers[..i + 1] == providers[..i] + [provider];
      assert forall p :: p in providers[..i + 1] <==> p in providers[..i] || p == provider;
      if provider.localName in seen {
        continue;
      }
      seen := seen + {provider.localName};
      body := SetAttribute(body, provider.localName, RequirementOf(provider));
    }
    assert providers[..|providers|] == providers;
  }

  lemma {:induction false} NoneRequired(ps: seq<RenderProvider>)
    ensures RequiredProviders(ps[..0]) == []
  {
  }

  // ------------------------------------------------------------------ module blocks

  function ModuleSource(host: string, m: RenderModule): string {
    host + "/" + m.namespace + "/" + m.name + "/" + m.system
  }

  function Repetition(m: RenderModule): seq<Item> {
    (if m.count.Some? then [Setting("count", Reference(m.count.value))] else [])
    + (if m.forEach.Some? then [Setting("for_each", Reference(m.forEach.value))] else [])
  }

  /** What precedes the inputs. */
  function ModuleHeader(host: string, m: RenderModule): seq<Item> {
    Repetition(m)
    + [Setting("source", StringCode(ModuleSource(host, m)))] + [Setting("version", StringCode("~> " + SanitizeVersion(m.version)))]
    + (if m.inputs != map[] || m.providerBindings != map[] then [EmptyLine] else [])
  }

  ghost function BindingsOf(m: RenderModule, children: seq<string>): seq<Binding>
    requires forall c :: c in children ==> c in m.providerBindings
  {
    seq(|children|, i requires 0 <= i < |children| => assert children[i] in children; Binding(children[i], m.providerBindings[children[i]]))
  }

  ghost function ModuleBody(host: string, m: RenderModule): seq<Item> {
    var body := SetArguments(ModuleHeader(host, m), Arranged(m.inputs.Keys), m.inputs);
    if m.providerBindings == map[] then body
    else SetAttribute(body, "providers", Bindings(BindingsOf(m, Arranged(m.providerBindings.Keys))))
  }

  ghost function ModuleBlock(host: string, m: RenderModule): Item {
    Block("module", [m.localName], ModuleBody(host, m))
  }

  predicate ModuleReads(accepts: Reader, m: RenderModule) {
    && (m.count.Some? ==> accepts(m.count.value))
    && (m.forEach.Some? ==> accepts(m.forEach.value))
    && ArgumentsRead(accepts, m.inputs)
  }

  method WriteBindings(m: RenderModule) returns (bindings: seq<Binding>)
    ensures bindings == BindingsOf(m, Arranged(m.providerBindings.Keys))
  {
    hide Ascending, SortBy;
    var children := SortedKeys(m.providerBindings);
    bindings := [];
    for i := 0 to |children|
      invariant bindings == BindingsOf(m, children)[..i]
    {
      assert children[i] in children;
      bindings := bindings + [Binding(children[i], m.providerBindings[children[i]])];
    }
    assert bindings == BindingsOf(m, children);
  }

  method WriteModule(accepts: Reader, host: string, m: RenderModule) returns (r: Option<Item>)
    ensures r == if ModuleReads(accepts, m) then Some(ModuleBlock(host, m)) else None
  {
    hide SetArguments, ArgumentsRead, SanitizeVersion, ModuleSource, ModuleHeader, BindingsOf, SetAttribute;
    if m.count.Some? && !accepts(m.count.value) {
      return None;
    }
    if m.forEach.Some? && !accepts(m.forEach.value) {
      return None;
    }
    var header := WriteHeader(host, m);
    var inputs := WriteArguments(accepts, header, m.inputs);
    if inputs.None? {
      return None;
    }
    var body := inputs.value;
    if m.providerBindings != map[] {
      var bindings := WriteBindings(m);
      body := SetAttribute(body, "providers", Bindings(bindings));
    }
    return Some(Block("module", [m.localName], body));
  }

  method WriteHeader(host: string, m: RenderModule) returns (body: seq<Item>)
    ensures body == ModuleHeader(host, m)
  {
    hide SanitizeVersion, ModuleSource, SetAttribute, Repetition;
    body := WriteRepetition(m);
    var source, version := StringCode(ModuleSource(host, m)), StringCode("~> " + SanitizeVersion(m.version));
    SetNew(body, "source", source);
    body := SetAttribute(body, "source", source);
    SetNew(body, "version", version);
    body := SetAttribute(body, "version", version);
    if m.inputs != map[] || m.providerBindings != map[] {
      body := body + [EmptyLine];
    }
  }

  method WriteRepetition(m: RenderModule) returns (body: seq<Item>)
    ensures body == Repetition(m)
    ensures forall i :: 0 <= i < |body| ==> body[i].Setting? && (body[i].name == "count" || body[i].name == "for_each")
  {
    body := [];
    if m.count.Some? {
      body := SetAttribute(body, "count", Reference(m.count.value));
    }
    if m.forEach.Some? {
      SetNew(body, "for_each", Reference(m.forEach.value));
      body := SetAttribute(body, "for_each", Reference(m.forEach.value));
    }
  }

  // ------------------------------------------------------------------ the main file

  function ProviderOrder(p: RenderProvider): string { PairKey(p.localName, p.alias) }

  function NameOfRenderModule(m: RenderModule): string { m.localName }

  ghost function ProviderBlocks(ps: seq<RenderProvider>): seq<Item> {
    seq(|ps|, i requires 0 <= i < |ps| => ProviderBlock(ps[i]))
  }

  ghost function ModuleBlocks(host: string, ms: seq<RenderModule>): seq<Item> {
    seq(|ms|, i requires 0 <= i < |ms| => ModuleBlock(host, ms[i]))
  }

  /** Items with an empty line between consecutive ones. */
  function Separated(items: seq<Item>): seq<Item> {
    if |items| <= 1 then items else [items[0], EmptyLine] + Separated(items[1..])
  }

  ghost function TerraformBlock(ps: seq<RenderProvider>): seq<Item> {
    if ps == [] then [] else [Block("terraform", [], [Block("required_providers", [], RequiredProviders(ps))]), EmptyLine]
  }

  predicate MainReads(accepts: Reader, model: RenderModel) {
    && (forall p :: p in model.providers ==> BlockReads(accepts, p.configuration))
    && (forall m :: m in model.modules ==> ModuleReads(accepts, m))
  }

  ghost function MainFile(host: string, ps: seq<RenderProvider>, ms: seq<RenderModule>): seq<Item> {
    TerraformBlock(ps) + Spaced(ProviderBlocks(ps)) + Separated(ModuleBlocks(host, ms))
  }

  method WriteProviders(accepts: Reader, before: seq<Item>, providers: seq<RenderProvider>) returns (r: Option<seq<Item>>)
    ensures r == if forall p :: p in providers ==> BlockReads(accepts, p.configuration) then Some(before + Spaced(ProviderBlocks(providers))) else None
  {
    hide BlockReads, BlockItems;
    var body := before;
    for i := 0 to |providers|
      invariant body == before + Spaced(ProviderBlocks(providers[..i]))
      invariant forall j :: 0 <= j < i ==> BlockReads(accepts, providers[j].configuration)
    {
      var provider := providers[i];
      var start: seq<Item> := [];
      if provider.alias != "" {
        start := SetAttribute(start, "alias", StringCode(provider.alias));
      }
      var items := AppendRenderBlock(accepts, start, provider.configuration);
      if items.None? {
        return None;
      }
      NextSpaced(ProviderBlocks(providers[..i]), ProviderBlock(provider));
      assert ProviderBlocks(providers[..i + 1]) == ProviderBlocks(providers[..i]) + [ProviderBlock(provider)];
      body := body + [Block("provider", [provider.localName], items.value)] + [EmptyLine];
    }
    assert providers[..|providers|] == providers;
    return Some(body);
  }

  lemma {:induction false} NextSeparated(items: seq<Item>, item: Item)
    ensures Separated(items + [item]) == (if items == [] then [] else Separated(items) + [EmptyLine]) + [item]
    decreases |items|
  {
    if |items| > 1 {
      assert (items + [item])[1..] == items[1..] + [item];
      NextSeparated(items[1..], item);
    } else if |items| == 1 {
      assert (items + [item])[1..] == [item];
    }
  }

  /** The modules written so far, with the empty line that follows every module but the last. */
  ghost function ModulesWritten(host: string, ms: seq<RenderModule>, n: nat): seq<Item>
    requires n <= |ms|
  {
    Separated(ModuleBlocks(host, ms[..n])) + if 0 < n < |ms| then [EmptyLine] else []
  }

  lemma {:induction false} NextWritten(host: string, ms: seq<RenderModule>, n: nat)
    requires n < |ms|
    ensures ModulesWritten(host, ms, n + 1)
         == ModulesWritten(host, ms, n) + [ModuleBlock(host, ms[n])] + if n < |ms| - 1 then [EmptyLine] else []
  {
    hide Separated, ModuleBlock;
    assert ModuleBlocks(host, ms[..n + 1]) == ModuleBlocks(host, ms[..n]) + [ModuleBlock(host, ms[n])];
    NextSeparated(ModuleBlocks(host, ms[..n]), ModuleBlock(host, ms[n]));
    if n == 0 {
      SeparatedNone();
    }
  }

  lemma {:induction false} SeparatedNone()
    ensures Separated([]) == []
  {
  }

  method WriteModules(accepts: Reader, host: string, before: seq<Item>, modules: seq<RenderModule>) returns (r: Option<seq<Item>>)
    ensures r == if forall m :: m in modules ==> ModuleReads(accepts, m) then Some(before + Separated(ModuleBlocks(host, modules))) else None
  {
    hide ModuleReads, ModuleBody, ModulesWritten;
    var body := before;
    WrittenEnds(host, modules);
    for i := 0 to |modules|
      invariant body == before + ModulesWritten(host, modules, i)
      invariant forall j :: 0 <= j < i ==> ModuleReads(accepts, modules[j])
    {
      var block := WriteModule(accepts, host, modules[i]);
      if block.None? {
        return None;
      }
      NextWritten(host, modules, i);
      body := body + [block.value];
      if i < |modules| - 1 {
        body := body + [EmptyLine];
      }
    }
    return Some(body);
  }

  lemma {:induction false} WrittenEnds(host: string, modules: seq<RenderModule>)
    ensures ModulesWritten(host, modules, 0) == []
    ensures ModulesWritten(host, modules, |modules|) == Separated(ModuleBlocks(host, modules))
  {
    hide ModuleBlock;
    assert modules[..|modules|] == modules;
    assert ModuleBlocks(host, modules[..0]) == [];
  }

  /** The files of a model; nothing when the registry host is blank or some expression does not read. */
  ghost function RenderedFiles(lib: Library, accepts: Reader, model: RenderModel): Option<Files> {
    var variables := VariablesFile(lib, model.variables);
    if ValuePrinter.Blank(model.registryHost) || variables.None? || !MainReads(accepts, model) then None
    else
      Some(Files(
        MainFile(model.registryHost, SortBy(model.providers, ProviderOrder), SortBy(model.modules, NameOfRenderModule)),
        variables.value))
  }

  method RenderMain(accepts: Reader, model: RenderModel) returns (r: Option<seq<Item>>)
    ensures r == if MainReads(accepts, model)
      then Some(MainFile(model.registryHost, SortBy(model.providers, ProviderOrder), SortBy(model.modules, NameOfRenderModule))) else None
  {
    hide BlockReads, ModuleReads, SortBy, ProviderBlocks, ModuleBlocks, Spaced, Separated, RequiredProviders;
    var providers := SortBy(model.providers, ProviderOrder);
    SameElements(providers, model.providers);
    var body: seq<Item> := [];
    if |providers| > 0 {
      var required := WriteRequiredProviders(providers);
      body := [Block("terraform", [], [Block("required_providers", [], required)])] + [EmptyLine];
    }
    assert body == TerraformBlock(providers);
    var withProviders := WriteProviders(accepts, body, providers);
    if withProviders.None? {
      return None;
    }
    var modules := SortBy(model.modules, NameOfRenderModule);
    SameElements(modules, model.modules);
    r := WriteModules(accepts, model.registryHost, withProviders.value, modules);
  }

  method Render(lib: Library, accepts: Reader, model: RenderModel) returns (r: Option<Files>)
    ensures r == RenderedFiles(lib, accepts, model)
  {
    hide MainReads, MainFile, VariablesFile;
    if ValuePrinter.Blank(model.registryHost) {
      return None;
    }
    var variables := RenderVariables(lib, model.variables);
    if variables.None? {
      return None;
    }
    var main := RenderMain(accepts, model);
    if main.None? {
      return None;
    }
    return Some(Files(main.value, variables.value));
  }
}
