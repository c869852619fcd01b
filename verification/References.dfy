/**
  Names on the canvas: how a field value that refers to another node becomes an expression over
  `var.` and `module.` names. Nodes are identified by node ID, emitted text only by name, so what
  has to be shown is that an emitted expression denotes what the canvas reference denotes.
 */
module References {
  import opened Basics
  import opened Strings
  import opened AssemblyTypes
  import opened ValuePrinter

  // ------------------------------------------------------------------ requests

  datatype FieldValue = FieldValue(
    mode: string, literal: string, refNodeID: string, refOutput: string,
    refSelector: Option<ReferenceSelector>, refOutputSelector: Option<ReferenceSelector>)

  datatype ReferenceSelector = ReferenceSelector(kind: string, expr: Option<FieldValue>)

  datatype Multiplicity = Multiplicity(kind: string, mode: string, expr: Option<FieldValue>, variableNodeID: Option<string>)

  datatype InputValue = InputValue(kind: string, value: Option<FieldValue>, items: seq<InputValue>, entries: seq<InputEntry>)

  datatype InputEntry = InputEntry(key: string, name: string, value: InputValue)

  datatype Validation = Validation(condition: string, errorMessage: string)

  datatype VariableNode = VariableNode(
    nodeID: string, name: string, t: TypeSpec, description: string, validations: seq<Validation>,
    hasDefault: bool, default: ValueSpec)

  datatype ModuleNode = ModuleNode(
    nodeID: string, namespace: string, name: string, version: string, localName: string,
    values: map<string, InputValue>, multiplicity: Multiplicity, providerBindings: map<string, string>)

  /** The nodes a reference may name, by node ID. */
  datatype Scope = Scope(variables: map<string, VariableNode>, modules: map<string, ModuleNode>)

  // ------------------------------------------------------------------ emitted expressions

  /**
    Text a user typed is a leaf; everything else is composed by the compiler. Text is composed by writing
    more text after it, and what that reads as depends on what it follows.
   */
  datatype Expression =
    | Typed(text: string)
    | Template(text: string)
    | Constant(text: string)
    | Variable(name: string)
    | Module(name: string)
    | Attribute(of: Expression, name: string)
    | Index(of: Expression, index: Expression)
    | Splat(of: Expression, each: seq<Accessor>)
    | EachInstance(of: Expression, path: seq<string>)
    | Digit(value: nat)
    | Choice(condition: Expression, yes: Expression, no: Expression)
    | Items(items: seq<Expression>)
    | Fields(fields: seq<Field>)

  /** What follows `[*]` is applied to every element. */
  datatype Accessor = Named(name: string) | At(index: Expression)

  datatype Field = Field(key: FieldKey, value: Expression)

  datatype FieldKey = Identifier(name: string) | QuotedKey(text: string) | ExpressionKey(text: string)

  /** `.name` after `e`; after a splat it belongs to the splat. */
  function WithAttribute(e: Expression, name: string): Expression {
    if e.Splat? then Splat(e.of, e.each + [Named(name)]) else Attribute(e, name)
  }

  function WithPath(e: Expression, path: seq<string>): Expression
    decreases |path|
  {
    if path == [] then e else WithAttribute(WithPath(e, path[..|path| - 1]), path[|path| - 1])
  }

  /** `[index]` after `e`; after a splat it belongs to the splat. */
  function WithIndex(e: Expression, index: Expression): Expression {
    if e.Splat? then Splat(e.of, e.each + [At(index)]) else Index(e, index)
  }

  predicate IsConditional(lib: Library, text: string) {
    lib.conditional(text).Some? && |lib.conditional(text).value.yes| < |text| && |lib.conditional(text).value.no| < |text|
  }

  function OneOrNone(condition: Expression): Expression {
    Choice(condition, Digit(1), Digit(0))
  }

  /**
    ` ? 1 : 0` after `e`. After a conditional it belongs to the last alternative. Text that does not stand alone does
    not take it: it ends in a comment that takes it, or on another line than its expression.
   */
  function WithSuffix(lib: Library, e: Expression): Expression
    decreases if e.Typed? then |e.text| else 0
  {
    if e.Typed? && !lib.standsAlone(e.text) then e
    else if e.Typed? && IsConditional(lib, e.text) then
      var c := lib.conditional(e.text).value;
      Choice(Typed(c.condition), Typed(c.yes), WithSuffix(lib, Typed(c.no)))
    else OneOrNone(e)
  }

  /** The attribute names in the text of an output. */
  function PathOf(output: string): seq<string> {
    if output == "" then [] else Split(output, '.')
  }

  /** The keys a `for_each` module is known to have, read off the default of the variable it repeats over. */
  function ModuleForEachKeys(m: ModuleNode, variables: map<string, VariableNode>): set<string> {
    var id := m.multiplicity.variableNodeID;
    if id.None? || id.value !in variables || !variables[id.value].hasDefault then {}
    else
      var v := variables[id.value];
      if v.t.kind == "map" then
        if v.default.kind != "map" then {}
        else set e | e in v.default.entries && !Blank(e.key) :: TrimSpace(e.key)
      else if v.t.kind == "list" || v.t.kind == "set" then
        if v.default.kind != "list" then {}
        else set i | i in v.default.items && i.kind == "scalar" && !Blank(i.literal) :: i.literal
      else {}
  }

  function ResolveFieldValue(lib: Library, scope: Scope, v: FieldValue): Option<Expression>
    decreases v
  {
    if v.mode == "literal" then
      if Blank(v.literal) || !lib.validExpression(v.literal) then None else Some(Typed(v.literal))
    else if v.mode != "reference" then None
    else if v.refNodeID in scope.variables then
      var base := Variable(scope.variables[v.refNodeID].name);
      ApplyOutputSelector(lib, scope, WithPath(base, PathOf(v.refOutput)), v.refOutputSelector)
    else if v.refNodeID !in scope.modules || v.refOutput == "" then None
    else
      match ModuleOutput(lib, scope, scope.modules[v.refNodeID], v.refOutput, v.refSelector)
      case None => None
      case Some(e) => ApplyOutputSelector(lib, scope, e, v.refOutputSelector)
  }

  /** The output of a module, of one of its instances, or of all of them. */
  function ModuleOutput(lib: Library, scope: Scope, m: ModuleNode, output: string, selector: Option<ReferenceSelector>): Option<Expression>
    decreases selector
  {
    var base, path := Module(m.localName), PathOf(output);
    var kind := m.multiplicity.kind;
    if kind == "" || kind == "none" then
      if selector.Some? then None else Some(WithPath(base, path))
    else if kind == "count" then
      if selector.None? then None
      else if selector.value.kind == "all" then Some(WithPath(Splat(base, []), path))
      else if selector.value.kind != "index" || selector.value.expr.None? then None
      else
        match ResolveFieldValue(lib, scope, selector.value.expr.value)
        case None => None
        case Some(index) => Some(WithPath(WithIndex(base, index), path))
    else if kind == "for_each" then
      if selector.None? then None
      else if selector.value.kind == "all" then Some(EachInstance(base, path))
      else if selector.value.kind != "key" || selector.value.expr.None? then None
      else
        var key := selector.value.expr.value;
        match ResolveFieldValue(lib, scope, key)
        case None => None
        case Some(index) =>
          if key.mode == "literal" && key.literal in ModuleForEachKeys(m, scope.variables) then
            Some(WithPath(WithIndex(base, Constant(key.literal)), path))
          else Some(WithPath(WithIndex(base, index), path))
    else None
  }

  function ApplyOutputSelector(lib: Library, scope: Scope, e: Expression, selector: Option<ReferenceSelector>): Option<Expression>
    decreases selector
  {
    if selector.None? || selector.value.kind == "all" then Some(e)
    else if (selector.value.kind != "index" && selector.value.kind != "key") || selector.value.expr.None? then None
    else
      match ResolveFieldValue(lib, scope, selector.value.expr.value)
      case None => None
      case Some(index) => Some(WithIndex(e, index))
  }

  // ------------------------------------------------------------------ which references resolve

  predicate Selects(kind: string, selector: ReferenceSelector) {
    selector.kind == "all" || (selector.kind == kind && selector.expr.Some?)
  }

  /** One instance needs no selector, counted instances an index, keyed ones a key; both allow `all`. */
  predicate InstanceSelectorFits(multiplicity: string, selector: Option<ReferenceSelector>) {
    match multiplicity
    case "" => selector.None?
    case "none" => selector.None?
    case "count" => selector.Some? && Selects("index", selector.value)
    case "for_each" => selector.Some? && Selects("key", selector.value)
    case _ => false
  }

  predicate OutputSelectorFits(selector: Option<ReferenceSelector>) {
    selector.Some? ==> Selects("index", selector.value) || Selects("key", selector.value)
  }

  /** What a field value has to satisfy by itself; a variable is preferred to a module with the same ID. */
  predicate FitsItself(lib: Library, scope: Scope, v: FieldValue) {
    if v.mode == "literal" then !Blank(v.literal) && lib.validExpression(v.literal)
    else
      && v.mode == "reference" && OutputSelectorFits(v.refOutputSelector)
      && (v.refNodeID in scope.variables
          || (v.refNodeID in scope.modules && v.refOutput != ""
              && InstanceSelectorFits(scope.modules[v.refNodeID].multiplicity.kind, v.refSelector)))
  }

  ghost function Chosen(selector: Option<ReferenceSelector>): set<FieldValue> {
    if selector.Some? && selector.value.kind != "all" && selector.value.expr.Some? then {selector.value.expr.value} else {}
  }

  /** The indexes and keys that a reference uses; a reference to a variable has no instance to select. */
  ghost function Used(scope: Scope, v: FieldValue): set<FieldValue> {
    if v.mode == "literal" then {}
    else Chosen(v.refOutputSelector) + if v.refNodeID in scope.variables then {} else Chosen(v.refSelector)
  }

  ghost predicate FitsThroughout(lib: Library, scope: Scope, v: FieldValue)
    decreases v
  {
    FitsItself(lib, scope, v) && forall u :: u in Used(scope, v) && u < v ==> FitsThroughout(lib, scope, u)
  }

  /** A field resolves exactly when it and every index and key it uses, at any depth, fits. */
  lemma {:induction false} ResolvesIff(lib: Library, scope: Scope, v: FieldValue)
    ensures ResolveFieldValue(lib, scope, v).Some? <==> FitsThroughout(lib, scope, v)
    decreases v
  {
    hide ModuleForEachKeys, TrimLeft, TrimRight;
    if v.mode == "reference" {
      if v.refOutputSelector.Some? && v.refOutputSelector.value.expr.Some? {
        ResolvesIff(lib, scope, v.refOutputSelector.value.expr.value);
      }
      if v.refSelector.Some? && v.refSelector.value.expr.Some? {
        ResolvesIff(lib, scope, v.refSelector.value.expr.value);
      }
    }
  }

  // ------------------------------------------------------------------ closure

  datatype Name = VariableName(name: string) | ModuleName(name: string)

  /** The variables and modules an expression names, outside text a user typed. */
  ghost function Mentions(e: Expression): set<Name> {
    match e
    case Typed(_) => {}
    case Template(_) => {}
    case Constant(_) => {}
    case Variable(n) => {VariableName(n)}
    case Module(n) => {ModuleName(n)}
    case Attribute(of, _) => Mentions(of)
    case Index(of, index) => Mentions(of) + Mentions(index)
    case Splat(of, each) => Mentions(of) + set i, n | 0 <= i < |each| && each[i].At? && n in Mentions(each[i].index) :: n
    case EachInstance(of, _) => Mentions(of)
    case Digit(_) => {}
    case Choice(c, yes, no) => Mentions(c) + Mentions(yes) + Mentions(no)
    case Items(items) => set i, n | 0 <= i < |items| && n in Mentions(items[i]) :: n
    case Fields(fields) => set i, n | 0 <= i < |fields| && n in Mentions(fields[i].value) :: n
  }

  ghost function VariableNames(scope: Scope): set<string> {
    set id | id in scope.variables :: scope.variables[id].name
  }

  ghost function ModuleNames(scope: Scope): set<string> {
    set id | id in scope.modules :: scope.modules[id].localName
  }

  ghost function NamesIn(scope: Scope): set<Name> {
    (set n | n in VariableNames(scope) :: VariableName(n)) + (set n | n in ModuleNames(scope) :: ModuleName(n))
  }

  lemma {:induction false} AttributeMentions(e: Expression, name: string)
    ensures Mentions(WithAttribute(e, name)) == Mentions(e)
  {
    if e.Splat? {
      var longer := Splat(e.of, e.each + [Named(name)]);
      assert forall i :: 0 <= i < |longer.each| && longer.each[i].At? ==> i < |e.each| && longer.each[i] == e.each[i];
      assert forall i :: 0 <= i < |e.each| ==> longer.each[i] == e.each[i];
    }
  }

  lemma {:induction false} PathMentions(e: Expression, path: seq<string>)
    ensures Mentions(WithPath(e, path)) == Mentions(e)
    decreases |path|
  {
    hide Mentions;
    if path != [] {
      PathMentions(e, path[..|path| - 1]);
      AttributeMentions(WithPath(e, path[..|path| - 1]), path[|path| - 1]);
    }
  }

  lemma {:induction false} IndexMentions(e: Expression, index: Expression)
    ensures Mentions(WithIndex(e, index)) == Mentions(e) + Mentions(index)
  {
    if e.Splat? {
      var n := |e.each|;
      var longer := Splat(e.of, e.each + [At(index)]);
      assert longer.each[n] == At(index);
      assert forall i :: 0 <= i < n ==> longer.each[i] == e.each[i];
    }
  }

  lemma {:induction false} SuffixMentions(lib: Library, e: Expression)
    ensures Mentions(WithSuffix(lib, e)) == Mentions(e)
    decreases if e.Typed? then |e.text| else 0
  {
    if e.Typed? && lib.standsAlone(e.text) && IsConditional(lib, e.text) {
      SuffixMentions(lib, Typed(lib.conditional(e.text).value.no));
    }
  }

  /** The index or key that selects an instance; a key the module is known to have is written as a constant. */
  ghost function InstanceIndex(lib: Library, scope: Scope, m: ModuleNode, chosen: FieldValue): Expression
    requires ResolveFieldValue(lib, scope, chosen).Some?
  {
    if m.multiplicity.kind == "for_each" && chosen.mode == "literal" && chosen.literal in ModuleForEachKeys(m, scope.variables) then
      Constant(chosen.literal)
    else ResolveFieldValue(lib, scope, chosen).value
  }

  /** The expression emitted for a module's output, by multiplicity and selector. */
  lemma {:induction false} ModuleOutputIsOneOf(lib: Library, scope: Scope, m: ModuleNode, output: string, selector: Option<ReferenceSelector>)
    requires ModuleOutput(lib, scope, m, output, selector).Some?
    ensures var e, base, kind, path := ModuleOutput(lib, scope, m, output, selector).value, Module(m.localName), m.multiplicity.kind, PathOf(output);
      if selector.None? then kind != "count" && kind != "for_each" && e == WithPath(base, path)
      else if selector.value.kind == "all" then
        (kind == "count" && e == WithPath(Splat(base, []), path)) || (kind == "for_each" && e == EachInstance(base, path))
      else
        && selector.value.expr.Some?
        && ResolveFieldValue(lib, scope, selector.value.expr.value).Some?
        && (kind == "count" || kind == "for_each")
        && e == WithPath(Index(base, InstanceIndex(lib, scope, m, selector.value.expr.value)), path)
  {
    hide ResolveFieldValue, WithPath, PathOf, ModuleForEachKeys;
  }

  /** A resolved reference names only nodes of the request. */
  lemma {:induction false} ResolvedIsClosed(lib: Library, scope: Scope, v: FieldValue)
    requires ResolveFieldValue(lib, scope, v).Some?
    ensures Mentions(ResolveFieldValue(lib, scope, v).value) <= NamesIn(scope)
    decreases v
  {
    if v.mode == "reference" {
      if v.refNodeID in scope.variables {
        var base := Variable(scope.variables[v.refNodeID].name);
        PathMentions(base, PathOf(v.refOutput));
        SelectedIsClosed(lib, scope, WithPath(base, PathOf(v.refOutput)), v.refOutputSelector);
      } else {
        var m := scope.modules[v.refNodeID];
        assert ModuleName(m.localName) in NamesIn(scope);
        ModuleOutputIsClosed(lib, scope, m, v.refOutput, v.refSelector);
        SelectedIsClosed(lib, scope, ModuleOutput(lib, scope, m, v.refOutput, v.refSelector).value, v.refOutputSelector);
      }
    }
  }

  lemma {:induction false} ModuleOutputIsClosed(lib: Library, scope: Scope, m: ModuleNode, output: string, selector: Option<ReferenceSelector>)
    requires ModuleOutput(lib, scope, m, output, selector).Some?
    requires ModuleName(m.localName) in NamesIn(scope)
    ensures Mentions(ModuleOutput(lib, scope, m, output, selector).value) <= NamesIn(scope)
    decreases selector
  {
    hide NamesIn, ModuleOutput, ResolveFieldValue, ModuleForEachKeys, WithPath, PathOf;
    ModuleOutputIsOneOf(lib, scope, m, output, selector);
    var base, path := Module(m.localName), PathOf(output);
    PathMentions(base, path);
    PathMentions(Splat(base, []), path);
    if selector.Some? && selector.value.kind != "all" {
      ResolvedIsClosed(lib, scope, selector.value.expr.value);
      var index := InstanceIndex(lib, scope, m, selector.value.expr.value);
      IndexMentions(base, index);
      PathMentions(WithIndex(base, index), path);
    }
  }

  lemma {:induction false} SelectedIsClosed(lib: Library, scope: Scope, e: Expression, selector: Option<ReferenceSelector>)
    requires ApplyOutputSelector(lib, scope, e, selector).Some?
    requires Mentions(e) <= NamesIn(scope)
    ensures Mentions(ApplyOutputSelector(lib, scope, e, selector).value) <= NamesIn(scope)
    decreases selector
  {
    hide NamesIn;
    if selector.Some? && selector.value.kind != "all" {
      ResolvedIsClosed(lib, scope, selector.value.expr.value);
      IndexMentions(e, ResolveFieldValue(lib, scope, selector.value.expr.value).value);
    }
  }
}
