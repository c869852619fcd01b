/**
  What references mean. Canvas references are given a meaning by node, emitted expressions one by
  name, and the two are compared for every assignment of values to the nodes.
 */
module ReferenceMeaning {
  import opened Basics
  import opened Sorting
  import opened AssemblyTypes
  import opened References

  // ------------------------------------------------------------------ what an emitted expression denotes

  datatype Value =
    | Unknown
    | Text(s: string)
    | Number(n: int)
    | Truth(b: bool)
    | ListOf(items: seq<Value>)
    | MapOf(entries: map<string, Value>)

  /**
    Values by name, as the emitted root module sees them. `typed` evaluates text a user typed, and
    `access` what is written after a dot, which need not be an attribute name.
   */
  datatype Env = Env(
    variables: map<string, Value>, modules: map<string, Value>, typed: string -> Value, template: string -> Value,
    access: (Value, string) -> Value)

  ghost function AttributeOf(v: Value, name: string): Value {
    if v.MapOf? && name in v.entries then v.entries[name] else Unknown
  }

  ghost function AttributePath(v: Value, path: seq<string>): Value
    decreases |path|
  {
    if path == [] then v else AttributeOf(AttributePath(v, path[..|path| - 1]), path[|path| - 1])
  }

  ghost function AccessPath(env: Env, v: Value, path: seq<string>): Value
    decreases |path|
  {
    if path == [] then v else env.access(AccessPath(env, v, path[..|path| - 1]), path[|path| - 1])
  }

  ghost function ElementOf(v: Value, index: Value): Value {
    if v.ListOf? && index.Number? && 0 <= index.n < |v.items| then v.items[index.n]
    else if v.MapOf? && index.Text? && index.s in v.entries then v.entries[index.s]
    else Unknown
  }

  ghost function Choose(condition: Value, yes: Value, no: Value): Value {
    if condition == Truth(true) then yes else if condition == Truth(false) then no else Unknown
  }

  /** The values of a map in ascending order of their keys, the order in which `for` visits them. */
  ghost function InKeyOrder<T>(m: map<string, T>): seq<T> {
    var keys := Arranged(m.Keys);
    seq(|keys|, i requires 0 <= i < |keys| => assert keys[i] in keys; m[keys[i]])
  }

  /** What a splat goes over; a value that is no list counts as a list of one. */
  ghost function SplatItems(v: Value): seq<Value> {
    if v.ListOf? then v.items else [v]
  }

  ghost predicate AccessorsInside(each: seq<Accessor>, within: Expression) {
    forall i :: 0 <= i < |each| && each[i].At? ==> each[i].index < within
  }

  ghost function Evaluate(env: Env, e: Expression): Value
    decreases e, 1
  {
    match e
    case Typed(t) => env.typed(t)
    case Template(t) => env.template(t)
    case Constant(t) => Text(t)
    case Variable(n) => if n in env.variables then env.variables[n] else Unknown
    case Module(n) => if n in env.modules then env.modules[n] else Unknown
    case Attribute(of, n) => env.access(Evaluate(env, of), n)
    case Index(of, index) => ElementOf(Evaluate(env, of), Evaluate(env, index))
    case Splat(of, each) =>
      var items := SplatItems(Evaluate(env, of));
      ListOf(seq(|items|, i requires 0 <= i < |items| => Reach(env, items[i], each, e)))
    case EachInstance(of, path) =>
      var v := Evaluate(env, of);
      if v.MapOf? then ListOf(AccessEach(env, InKeyOrder(v.entries), path))
      else if v.ListOf? then ListOf(AccessEach(env, v.items, path))
      else Unknown
    case Digit(n) => Number(n)
    case Choice(c, yes, no) => Choose(Evaluate(env, c), Evaluate(env, yes), Evaluate(env, no))
    case Items(items) => ListOf(seq(|items|, i requires 0 <= i < |items| => Evaluate(env, items[i])))
    case Fields(fields) => MapOf(EvaluateFields(env, fields, e))
  }

  ghost function AccessEach(env: Env, vs: seq<Value>, path: seq<string>): seq<Value> {
    seq(|vs|, i requires 0 <= i < |vs| => AccessPath(env, vs[i], path))
  }

  /** What the accessors of a splat lead to from one element. */
  ghost function Reach(env: Env, v: Value, each: seq<Accessor>, within: Expression): Value
    requires AccessorsInside(each, within)
    decreases within, 0, |each|
  {
    if each == [] then v
    else
      var inner := Reach(env, v, each[..|each| - 1], within);
      match each[|each| - 1]
      case Named(n) => env.access(inner, n)
      case At(index) => ElementOf(inner, Evaluate(env, index))
  }

  /** A later field replaces an earlier one with the same key. */
  ghost function EvaluateFields(env: Env, fields: seq<Field>, within: Expression): map<string, Value>
    requires forall i :: 0 <= i < |fields| ==> fields[i].value < within
    decreases within, 0, |fields|
  {
    if fields == [] then map[]
    else
      var last := fields[|fields| - 1];
      EvaluateFields(env, fields[..|fields| - 1], within)[EvaluateKey(env, last.key) := Evaluate(env, last.value)]
  }

  ghost function EvaluateKey(env: Env, key: FieldKey): string {
    match key
    case Identifier(n) => n
    case QuotedKey(t) => t
    case ExpressionKey(t) => if env.typed(t).Text? then env.typed(t).s else ""
  }

  // ------------------------------------------------------------------ what a canvas reference denotes

  /** The outputs of a module's instances. */
  datatype Instances =
    | One(outputs: map<string, Value>)
    | Counted(instances: seq<map<string, Value>>)
    | Keyed(byKey: map<string, map<string, Value>>)

  /** Values by node ID. */
  datatype World = World(variables: map<string, Value>, modules: map<string, Instances>, typed: string -> Value, template: string -> Value)

  predicate Fits(kind: string, instances: Instances) {
    match instances
    case One(_) => kind != "count" && kind != "for_each"
    case Counted(_) => kind == "count"
    case Keyed(_) => kind == "for_each"
  }

  /** A value for every node, with instances as the module's multiplicity says. */
  ghost predicate Covers(world: World, scope: Scope) {
    && scope.variables.Keys <= world.variables.Keys
    && scope.modules.Keys <= world.modules.Keys
    && forall id :: id in scope.modules ==> Fits(scope.modules[id].multiplicity.kind, world.modules[id])
  }

  ghost function OutputsOf(instances: seq<map<string, Value>>, path: seq<string>): seq<Value> {
    seq(|instances|, i requires 0 <= i < |instances| => AttributePath(MapOf(instances[i]), path))
  }

  /** The value on the canvas of a field that resolves. */
  ghost function Denotes(scope: Scope, world: World, v: FieldValue): Value
    requires Covers(world, scope)
    decreases v, 1
  {
    if v.mode == "literal" then world.typed(v.literal)
    else if v.refNodeID in scope.variables then
      var whole := world.variables[v.refNodeID];
      Selected(scope, world, AttributePath(whole, PathOf(v.refOutput)), v.refOutputSelector)
    else if v.refNodeID in scope.modules then
      Selected(scope, world, InstanceOutput(scope, world, scope.modules[v.refNodeID], world.modules[v.refNodeID], PathOf(v.refOutput), v.refSelector),
        v.refOutputSelector)
    else Unknown
  }

  ghost function InstanceOutput(scope: Scope, world: World, m: ModuleNode, instances: Instances, path: seq<string>, selector: Option<ReferenceSelector>): Value
    requires Covers(world, scope)
    decreases selector, 0
  {
    match instances
    case One(outputs) => AttributePath(MapOf(outputs), path)
    case Counted(each) =>
      if selector.None? || selector.value.kind == "all" || selector.value.expr.None? then ListOf(OutputsOf(each, path))
      else
        var index := Denotes(scope, world, selector.value.expr.value);
        if index.Number? && 0 <= index.n < |each| then AttributePath(MapOf(each[index.n]), path) else Unknown
    case Keyed(each) =>
      if selector.None? || selector.value.kind == "all" || selector.value.expr.None? then ListOf(OutputsOf(InKeyOrder(each), path))
      else
        var chosen := selector.value.expr.value;
        var key := if chosen.mode == "literal" && chosen.literal in ModuleForEachKeys(m, scope.variables)
          then Text(chosen.literal) else Denotes(scope, world, chosen);
        if key.Text? && key.s in each then AttributePath(MapOf(each[key.s]), path) else Unknown
  }

  ghost function Selected(scope: Scope, world: World, v: Value, selector: Option<ReferenceSelector>): Value
    requires Covers(world, scope)
    decreases selector, 0
  {
    if selector.None? || selector.value.kind == "all" || selector.value.expr.None? then v
    else ElementOf(v, Denotes(scope, world, selector.value.expr.value))
  }

  // ------------------------------------------------------------------ names stand for nodes

  /** How the instances of a module appear behind its name. */
  ghost function InstancesValue(instances: Instances): Value {
    match instances
    case One(outputs) => MapOf(outputs)
    case Counted(each) => ListOf(seq(|each|, i requires 0 <= i < |each| => MapOf(each[i])))
    case Keyed(each) => MapOf(map k | k in each :: MapOf(each[k]))
  }

  /** Every name has the value of the node that carries it, and an identifier after a dot is an attribute name. */
  ghost predicate Represents(lib: Library, env: Env, world: World, scope: Scope)
    requires Covers(world, scope)
  {
    && env.typed == world.typed && env.template == world.template
    && (forall v, n :: ValidIdentifier(lib, n) ==> env.access(v, n) == AttributeOf(v, n))
    && (forall id :: id in scope.variables ==>
        scope.variables[id].name in env.variables && env.variables[scope.variables[id].name] == world.variables[id])
    && (forall id :: id in scope.modules ==>
        scope.modules[id].localName in env.modules && env.modules[scope.modules[id].localName] == InstancesValue(world.modules[id]))
  }

  ghost predicate DistinctNames(scope: Scope) {
    && (forall a, b :: a in scope.variables && b in scope.variables && scope.variables[a].name == scope.variables[b].name ==> a == b)
    && (forall a, b :: a in scope.modules && b in scope.modules && scope.modules[a].localName == scope.modules[b].localName ==> a == b)
  }

  /** Names are a faithful view of the nodes, whatever the nodes' values, when and only when no two nodes share a name. */
  lemma {:induction false} NamesRepresent(lib: Library, scope: Scope)
    ensures DistinctNames(scope) <==> forall world :: Covers(world, scope) ==> exists env :: Represents(lib, env, world, scope)
  {
    if DistinctNames(scope) {
      forall world | Covers(world, scope) ensures exists env :: Represents(lib, env, world, scope) {
        var env := NamedView(lib, scope, world);
      }
    } else {
      SharedNameIsAmbiguous(lib, scope);
    }
  }

  ghost function VariableNamed(scope: Scope, n: string): (id: string)
    requires n in VariableNames(scope)
    ensures id in scope.variables && scope.variables[id].name == n
  {
    var id :| id in scope.variables && scope.variables[id].name == n;
    id
  }

  ghost function ModuleNamed(scope: Scope, n: string): (id: string)
    requires n in ModuleNames(scope)
    ensures id in scope.modules && scope.modules[id].localName == n
  {
    var id :| id in scope.modules && scope.modules[id].localName == n;
    id
  }

  ghost function NamedVariables(scope: Scope, world: World): map<string, Value>
    requires Covers(world, scope)
  {
    map n | n in VariableNames(scope) :: world.variables[VariableNamed(scope, n)]
  }

  ghost function NamedModules(scope: Scope, world: World): map<string, Value>
    requires Covers(world, scope)
  {
    map n | n in ModuleNames(scope) :: InstancesValue(world.modules[ModuleNamed(scope, n)])
  }

  lemma {:induction false} VariableViewed(scope: Scope, world: World, id: string)
    requires Covers(world, scope) && DistinctNames(scope) && id in scope.variables
    ensures scope.variables[id].name in NamedVariables(scope, world)
    ensures NamedVariables(scope, world)[scope.variables[id].name] == world.variables[id]
  {
    assert scope.variables[id].name in VariableNames(scope);
    assert VariableNamed(scope, scope.variables[id].name) == id;
  }

  lemma {:induction false} ModuleViewed(scope: Scope, world: World, id: string)
    requires Covers(world, scope) && DistinctNames(scope) && id in scope.modules
    ensures scope.modules[id].localName in NamedModules(scope, world)
    ensures NamedModules(scope, world)[scope.modules[id].localName] == InstancesValue(world.modules[id])
  {
    assert scope.modules[id].localName in ModuleNames(scope);
    assert ModuleNamed(scope, scope.modules[id].localName) == id;
  }

  lemma {:induction false} NamedView(lib: Library, scope: Scope, world: World) returns (env: Env)
    requires Covers(world, scope) && DistinctNames(scope)
    ensures Represents(lib, env, world, scope)
  {
    hide InstancesValue, DistinctNames, NamedVariables, NamedModules;
    env := Env(NamedVariables(scope, world), NamedModules(scope, world), world.typed, world.template, (v, n) => AttributeOf(v, n));
    forall id | id in scope.variables
      ensures scope.variables[id].name in env.variables && env.variables[scope.variables[id].name] == world.variables[id]
    {
      VariableViewed(scope, world, id);
    }
    forall id | id in scope.modules
      ensures scope.modules[id].localName in env.modules
      ensures env.modules[scope.modules[id].localName] == InstancesValue(world.modules[id])
    {
      ModuleViewed(scope, world, id);
    }
  }

  ghost function SampleInstances(kind: string, full: bool): Instances {
    if kind == "count" then Counted(if full then [map[]] else [])
    else if kind == "for_each" then Keyed(if full then map["k" := map[]] else map[])
    else One(if full then map["o" := Unknown] else map[])
  }

  ghost function SampleWorld(scope: Scope, marked: string): World {
    World(
      map id | id in scope.variables :: Truth(id == marked),
      map id | id in scope.modules :: SampleInstances(scope.modules[id].multiplicity.kind, id == marked),
      t => Unknown, t => Unknown)
  }

  lemma {:induction false} SampleCovers(scope: Scope, marked: string)
    ensures Covers(SampleWorld(scope, marked), scope)
  {
  }

  /** Two nodes with one name: giving only one of them a distinctive value leaves the name without a meaning. */
  lemma {:induction false} SharedNameIsAmbiguous(lib: Library, scope: Scope)
    requires !DistinctNames(scope)
    ensures exists world :: Covers(world, scope) && forall env :: !Represents(lib, env, world, scope)
  {
    hide SampleWorld, Covers;
    if a, b :| a in scope.variables && b in scope.variables && scope.variables[a].name == scope.variables[b].name && a != b {
      SampleCovers(scope, a);
      SharedVariable(lib, scope, a, b);
    } else {
      var a, b :| a in scope.modules && b in scope.modules && scope.modules[a].localName == scope.modules[b].localName && a != b;
      SampleCovers(scope, a);
      SharedModule(lib, scope, a, b);
    }
  }

  lemma {:induction false} SharedVariable(lib: Library, scope: Scope, a: string, b: string)
    requires Covers(SampleWorld(scope, a), scope)
    requires a in scope.variables && b in scope.variables && scope.variables[a].name == scope.variables[b].name && a != b
    ensures forall env :: !Represents(lib, env, SampleWorld(scope, a), scope)
  {
    var world := SampleWorld(scope, a);
    assert world.variables[a] != world.variables[b];
  }

  lemma {:induction false} SharedModule(lib: Library, scope: Scope, a: string, b: string)
    requires Covers(SampleWorld(scope, a), scope)
    requires a in scope.modules && b in scope.modules && scope.modules[a].localName == scope.modules[b].localName && a != b
    ensures forall env :: !Represents(lib, env, SampleWorld(scope, a), scope)
  {
    hide InstancesValue, SampleInstances;
    var world := SampleWorld(scope, a);
    SamplesDiffer(scope.modules[a].multiplicity.kind, scope.modules[b].multiplicity.kind);
    assert InstancesValue(world.modules[a]) != InstancesValue(world.modules[b]);
  }

  lemma {:induction false} SamplesDiffer(kind: string, other: string)
    ensures InstancesValue(SampleInstances(kind, true)) != InstancesValue(SampleInstances(other, false))
  {
    var full, empty := InstancesValue(SampleInstances(kind, true)), InstancesValue(SampleInstances(other, false));
    assert full.MapOf? ==> "k" in full.entries || "o" in full.entries;
    assert full.ListOf? ==> |full.items| == 1;
    assert empty.ListOf? ==> |empty.items| == 0;
    assert empty.MapOf? ==> empty.entries == map[];
  }

  // ------------------------------------------------------------------ which references keep their meaning

  /** All instances of a counted module, and then one element of an output: the emitted index belongs to the splat. */
  predicate Absorbs(scope: Scope, v: FieldValue) {
    && v.mode == "reference" && v.refNodeID !in scope.variables && v.refNodeID in scope.modules
    && scope.modules[v.refNodeID].multiplicity.kind == "count"
    && v.refSelector.Some? && v.refSelector.value.kind == "all"
    && v.refOutputSelector.Some? && v.refOutputSelector.value.kind != "all"
  }

  ghost predicate NoneAbsorbs(scope: Scope, v: FieldValue)
    decreases v
  {
    !Absorbs(scope, v) && forall u :: u in Used(scope, v) && u < v ==> NoneAbsorbs(scope, u)
  }

  predicate PlainPath(lib: Library, path: seq<string>) {
    forall i :: 0 <= i < |path| ==> ValidIdentifier(lib, path[i])
  }

  /** Outputs, at every depth, are identifiers or dotted identifiers. */
  ghost predicate PlainOutputs(lib: Library, scope: Scope, v: FieldValue)
    decreases v
  {
    && (v.mode == "reference" ==> PlainPath(lib, PathOf(v.refOutput)))
    && forall u :: u in Used(scope, v) && u < v ==> PlainOutputs(lib, scope, u)
  }

  /** Nothing is absorbed, and outputs are plain. */
  ghost predicate Direct(lib: Library, scope: Scope, v: FieldValue) {
    NoneAbsorbs(scope, v) && PlainOutputs(lib, scope, v)
  }

  /** Read by name, the emitted expression has the value that the field has on the canvas, whatever the values of the nodes. */
  ghost predicate KeepsMeaning(lib: Library, scope: Scope, v: FieldValue)
    requires ResolveFieldValue(lib, scope, v).Some?
  {
    forall world, env :: Covers(world, scope) && Represents(lib, env, world, scope) ==>
      Evaluate(env, ResolveFieldValue(lib, scope, v).value) == Denotes(scope, world, v)
  }

  /** So do all the indexes and keys it uses. */
  ghost predicate AllKeepMeaning(lib: Library, scope: Scope, v: FieldValue)
    decreases v
  {
    && ResolveFieldValue(lib, scope, v).Some? && KeepsMeaning(lib, scope, v)
    && forall u :: u in Used(scope, v) && u < v ==> AllKeepMeaning(lib, scope, u)
  }

  lemma {:induction false} PathMeans(env: Env, e: Expression, path: seq<string>)
    requires !e.Splat?
    ensures !WithPath(e, path).Splat? && Evaluate(env, WithPath(e, path)) == AccessPath(env, Evaluate(env, e), path)
    decreases |path|
  {
    hide Evaluate;
    if path != [] {
      var before := path[..|path| - 1];
      PathMeans(env, e, before);
      AttributeMeans(env, WithPath(e, before), path[|path| - 1]);
    }
  }

  lemma {:induction false} AttributeMeans(env: Env, e: Expression, name: string)
    ensures Evaluate(env, Attribute(e, name)) == env.access(Evaluate(env, e), name)
  {
  }

  ghost function NamedEach(path: seq<string>): seq<Accessor> {
    seq(|path|, i requires 0 <= i < |path| => Named(path[i]))
  }

  lemma {:induction false} SplatPath(of: Expression, path: seq<string>)
    ensures WithPath(Splat(of, []), path) == Splat(of, NamedEach(path))
    decreases |path|
  {
    if path != [] {
      SplatPath(of, path[..|path| - 1]);
      assert NamedEach(path) == NamedEach(path[..|path| - 1]) + [Named(path[|path| - 1])];
    }
  }

  lemma {:induction false} ReachIsAccess(env: Env, v: Value, path: seq<string>, within: Expression)
    ensures Reach(env, v, NamedEach(path), within) == AccessPath(env, v, path)
    decreases |path|
  {
    hide Evaluate;
    if path != [] {
      var before := path[..|path| - 1];
      ReachIsAccess(env, v, before, within);
      assert NamedEach(path)[..|path| - 1] == NamedEach(before);
      assert NamedEach(path)[|path| - 1] == Named(path[|path| - 1]);
    }
  }

  lemma {:induction false} AccessIsAttribute(lib: Library, scope: Scope, world: World, env: Env, v: Value, path: seq<string>)
    requires Covers(world, scope) && Represents(lib, env, world, scope) && PlainPath(lib, path)
    ensures AccessPath(env, v, path) == AttributePath(v, path)
    decreases |path|
  {
    if path != [] {
      AccessIsAttribute(lib, scope, world, env, v, path[..|path| - 1]);
      assert ValidIdentifier(lib, path[|path| - 1]);
    }
  }

  lemma {:induction false} SplatMeans(lib: Library, scope: Scope, world: World, env: Env, base: Expression, each: seq<map<string, Value>>, path: seq<string>)
    requires Covers(world, scope) && Represents(lib, env, world, scope) && PlainPath(lib, path)
    requires Evaluate(env, base) == InstancesValue(Counted(each))
    ensures Evaluate(env, WithPath(Splat(base, []), path)) == ListOf(OutputsOf(each, path))
  {
    hide Represents, Covers, AccessPath, AttributePath, WithPath;
    SplatPath(base, path);
    var e := Splat(base, NamedEach(path));
    var items := SplatItems(Evaluate(env, base));
    forall i | 0 <= i < |items| ensures Reach(env, items[i], NamedEach(path), e) == AttributePath(MapOf(each[i]), path) {
      ReachIsAccess(env, items[i], path, e);
      AccessIsAttribute(lib, scope, world, env, items[i], path);
    }
    assert Evaluate(env, e).items == OutputsOf(each, path);
  }

  lemma {:induction false} EachMeans(lib: Library, scope: Scope, world: World, env: Env, base: Expression, each: map<string, map<string, Value>>,
      path: seq<string>)
    requires Covers(world, scope) && Represents(lib, env, world, scope) && PlainPath(lib, path)
    requires Evaluate(env, base) == InstancesValue(Keyed(each))
    ensures Evaluate(env, EachInstance(base, path)) == ListOf(OutputsOf(InKeyOrder(each), path))
  {
    hide Represents, Covers, AccessPath, AttributePath, InKeyOrder;
    var entries := Evaluate(env, base).entries;
    SameKeyOrder(entries, each);
    var values, instances := InKeyOrder(entries), InKeyOrder(each);
    forall i | 0 <= i < |values| ensures AccessPath(env, values[i], path) == AttributePath(MapOf(instances[i]), path) {
      AccessIsAttribute(lib, scope, world, env, values[i], path);
    }
    assert AccessEach(env, values, path) == OutputsOf(instances, path);
  }

  lemma {:induction false} SameKeyOrder(entries: map<string, Value>, each: map<string, map<string, Value>>)
    requires entries == map k | k in each :: MapOf(each[k])
    ensures |InKeyOrder(entries)| == |InKeyOrder(each)|
    ensures forall i :: 0 <= i < |InKeyOrder(each)| ==> InKeyOrder(entries)[i] == MapOf(InKeyOrder(each)[i])
  {
    hide Ascending;
    assert entries.Keys == each.Keys;
    var keys := Arranged(each.Keys);
    forall i | 0 <= i < |keys| ensures InKeyOrder(entries)[i] == MapOf(InKeyOrder(each)[i]) {
      assert keys[i] in keys;
    }
  }

  lemma {:induction false} ModuleMeans(lib: Library, scope: Scope, world: World, env: Env, id: string)
    requires Covers(world, scope) && Represents(lib, env, world, scope) && id in scope.modules
    ensures Evaluate(env, Module(scope.modules[id].localName)) == InstancesValue(world.modules[id])
  {
  }

  /** Where nothing is absorbed and outputs are plain, an emitted expression denotes what the canvas reference denotes. */
  lemma {:induction false} ResolvedMeans(lib: Library, scope: Scope, world: World, env: Env, v: FieldValue)
    requires Covers(world, scope) && Represents(lib, env, world, scope)
    requires ResolveFieldValue(lib, scope, v).Some? && NoneAbsorbs(scope, v) && PlainOutputs(lib, scope, v)
    ensures Evaluate(env, ResolveFieldValue(lib, scope, v).value) == Denotes(scope, world, v)
    decreases v, 2
  {
    if v.mode == "reference" {
      if v.refNodeID in scope.variables {
        VariableReferenceMeans(lib, scope, world, env, v);
      } else {
        ModuleReferenceMeans(lib, scope, world, env, v);
      }
    }
  }

  /** The selector's expression, if it has one, keeps its meaning. */
  ghost predicate SelectorMeans(lib: Library, scope: Scope, world: World, env: Env, selector: Option<ReferenceSelector>)
    requires Covers(world, scope)
  {
    selector.Some? && selector.value.kind != "all" && selector.value.expr.Some? ==>
      && ResolveFieldValue(lib, scope, selector.value.expr.value).Some?
      && Evaluate(env, ResolveFieldValue(lib, scope, selector.value.expr.value).value) == Denotes(scope, world, selector.value.expr.value)
  }

  lemma {:induction false} VariableReferenceMeans(lib: Library, scope: Scope, world: World, env: Env, v: FieldValue)
    requires Covers(world, scope) && Represents(lib, env, world, scope)
    requires ResolveFieldValue(lib, scope, v).Some? && NoneAbsorbs(scope, v) && PlainOutputs(lib, scope, v)
    requires v.mode == "reference" && v.refNodeID in scope.variables
    ensures Evaluate(env, ResolveFieldValue(lib, scope, v).value) == Denotes(scope, world, v)
    decreases v, 1
  {
    hide Covers, PathOf, PlainPath, AccessPath, AttributePath;
    var base, path := Variable(scope.variables[v.refNodeID].name), PathOf(v.refOutput);
    PathMeans(env, base, path);
    AccessIsAttribute(lib, scope, world, env, Evaluate(env, base), path);
    OutputSelectorMeans(lib, scope, world, env, v);
    SelectedMeans(lib, scope, world, env, WithPath(base, path), v.refOutputSelector);
  }

  lemma {:induction false} ModuleReferenceMeans(lib: Library, scope: Scope, world: World, env: Env, v: FieldValue)
    requires Covers(world, scope) && Represents(lib, env, world, scope)
    requires ResolveFieldValue(lib, scope, v).Some? && NoneAbsorbs(scope, v) && PlainOutputs(lib, scope, v)
    requires v.mode == "reference" && v.refNodeID !in scope.variables
    ensures Evaluate(env, ResolveFieldValue(lib, scope, v).value) == Denotes(scope, world, v)
    decreases v, 1
  {
    hide Covers, PathOf, PlainPath, Represents, ModuleOutput, Evaluate, InstanceOutput, Selected;
    InstanceSelectorMeans(lib, scope, world, env, v);
    OutputSelectorMeans(lib, scope, world, env, v);
    ModuleOutputMeans(lib, scope, world, env, v.refNodeID, v.refOutput, v.refSelector);
    var e := ModuleOutput(lib, scope, scope.modules[v.refNodeID], v.refOutput, v.refSelector).value;
    OnlyCountedSplats(lib, scope, v);
    SelectedMeans(lib, scope, world, env, e, v.refOutputSelector);
  }

  lemma {:induction false} OutputSelectorMeans(lib: Library, scope: Scope, world: World, env: Env, v: FieldValue)
    requires Covers(world, scope) && Represents(lib, env, world, scope)
    requires ResolveFieldValue(lib, scope, v).Some? && NoneAbsorbs(scope, v) && PlainOutputs(lib, scope, v)
    requires v.mode == "reference"
    ensures SelectorMeans(lib, scope, world, env, v.refOutputSelector)
    decreases v, 0
  {
    hide Represents, Covers, Evaluate, Denotes, ModuleOutput, WithPath, PathOf, PlainPath;
    var selector := v.refOutputSelector;
    if selector.Some? && selector.value.kind != "all" && selector.value.expr.Some? {
      assert selector.value.expr.value in Used(scope, v);
      ResolvedMeans(lib, scope, world, env, selector.value.expr.value);
    }
  }

  lemma {:induction false} InstanceSelectorMeans(lib: Library, scope: Scope, world: World, env: Env, v: FieldValue)
    requires Covers(world, scope) && Represents(lib, env, world, scope)
    requires ResolveFieldValue(lib, scope, v).Some? && NoneAbsorbs(scope, v) && PlainOutputs(lib, scope, v)
    requires v.mode == "reference" && v.refNodeID !in scope.variables
    ensures SelectorMeans(lib, scope, world, env, v.refSelector)
    decreases v, 0
  {
    hide Represents, Covers, Evaluate, Denotes, WithPath, PathOf, PlainPath;
    var selector := v.refSelector;
    if selector.Some? && selector.value.kind != "all" && selector.value.expr.Some? {
      ModuleOutputIsOneOf(lib, scope, scope.modules[v.refNodeID], v.refOutput, selector);
      assert selector.value.expr.value in Used(scope, v);
      ResolvedMeans(lib, scope, world, env, selector.value.expr.value);
    }
  }

  /** Only a splat takes an index for its own. */
  lemma {:induction false} OnlyCountedSplats(lib: Library, scope: Scope, v: FieldValue)
    requires ResolveFieldValue(lib, scope, v).Some? && !Absorbs(scope, v)
    requires v.mode == "reference" && v.refNodeID !in scope.variables
    ensures var e := ModuleOutput(lib, scope, scope.modules[v.refNodeID], v.refOutput, v.refSelector).value;
      e.Splat? ==> v.refOutputSelector.None? || v.refOutputSelector.value.kind == "all"
  {
    hide ModuleOutput, WithPath, PathOf;
    var m := scope.modules[v.refNodeID];
    ModuleOutputIsOneOf(lib, scope, m, v.refOutput, v.refSelector);
    NoSplat(Module(m.localName), PathOf(v.refOutput));
    if v.refSelector.Some? && v.refSelector.value.kind != "all" {
      NoSplat(Index(Module(m.localName), InstanceIndex(lib, scope, m, v.refSelector.value.expr.value)), PathOf(v.refOutput));
    }
  }

  lemma {:induction false} NoSplat(e: Expression, path: seq<string>)
    requires !e.Splat?
    ensures !WithPath(e, path).Splat?
    decreases |path|
  {
    if path != [] {
      NoSplat(e, path[..|path| - 1]);
    }
  }

  lemma {:induction false} SelectedMeans(lib: Library, scope: Scope, world: World, env: Env, e: Expression, selector: Option<ReferenceSelector>)
    requires Covers(world, scope)
    requires ApplyOutputSelector(lib, scope, e, selector).Some? && SelectorMeans(lib, scope, world, env, selector)
    requires e.Splat? ==> selector.None? || selector.value.kind == "all"
    ensures Evaluate(env, ApplyOutputSelector(lib, scope, e, selector).value) == Selected(scope, world, Evaluate(env, e), selector)
  {
    hide Covers, Denotes, ResolveFieldValue;
  }

  lemma {:induction false} ModuleOutputMeans(lib: Library, scope: Scope, world: World, env: Env, id: string, output: string, selector: Option<ReferenceSelector>)
    requires Covers(world, scope) && Represents(lib, env, world, scope) && id in scope.modules && PlainPath(lib, PathOf(output))
    requires ModuleOutput(lib, scope, scope.modules[id], output, selector).Some? && SelectorMeans(lib, scope, world, env, selector)
    ensures Evaluate(env, ModuleOutput(lib, scope, scope.modules[id], output, selector).value)
         == InstanceOutput(scope, world, scope.modules[id], world.modules[id], PathOf(output), selector)
  {
    hide Represents, Denotes, ResolveFieldValue, ModuleOutput, PathOf, Evaluate, PlainPath, AttributePath, AccessPath, ModuleForEachKeys;
    var m, instances, path := scope.modules[id], world.modules[id], PathOf(output);
    var base := Module(m.localName);
    ModuleMeans(lib, scope, world, env, id);
    ModuleOutputIsOneOf(lib, scope, m, output, selector);
    if selector.None? {
      PathMeans(env, base, path);
      AccessIsAttribute(lib, scope, world, env, Evaluate(env, base), path);
    } else if selector.value.kind == "all" {
      if instances.Counted? {
        SplatMeans(lib, scope, world, env, base, instances.instances, path);
      } else {
        EachMeans(lib, scope, world, env, base, instances.byKey, path);
      }
    } else {
      InstanceMeans(lib, scope, world, env, id, path, selector);
    }
  }

  lemma {:induction false} InstanceMeans(lib: Library, scope: Scope, world: World, env: Env, id: string, path: seq<string>, selector: Option<ReferenceSelector>)
    requires Covers(world, scope) && Represents(lib, env, world, scope) && id in scope.modules && PlainPath(lib, path)
    requires selector.Some? && selector.value.kind != "all" && selector.value.expr.Some?
    requires SelectorMeans(lib, scope, world, env, selector)
    requires scope.modules[id].multiplicity.kind == "count" || scope.modules[id].multiplicity.kind == "for_each"
    ensures Evaluate(env, WithPath(Index(Module(scope.modules[id].localName), InstanceIndex(lib, scope, scope.modules[id], selector.value.expr.value)), path))
         == InstanceOutput(scope, world, scope.modules[id], world.modules[id], path, selector)
  {
    hide Represents, Denotes, ResolveFieldValue, PlainPath, AccessPath, WithPath, ModuleForEachKeys;
    var m, instances := scope.modules[id], world.modules[id];
    var base, index := Module(m.localName), InstanceIndex(lib, scope, m, selector.value.expr.value);
    ModuleMeans(lib, scope, world, env, id);
    var e := Index(base, index);
    PathMeans(env, e, path);
    AccessIsAttribute(lib, scope, world, env, Evaluate(env, e), path);
    assert Evaluate(env, e) == ElementOf(InstancesValue(instances), Evaluate(env, index));
    PathOfUnknown(path);
  }

  lemma {:induction false} PathOfUnknown(path: seq<string>)
    ensures AttributePath(Unknown, path) == Unknown
    decreases |path|
  {
    if path != [] {
      PathOfUnknown(path[..|path| - 1]);
    }
  }

  // ------------------------------------------------------------------ and which do not

  /** The world without instances: all of none are none, but one of none is nothing. */
  lemma {:induction false} AbsorbedLosesMeaning(lib: Library, scope: Scope, v: FieldValue)
    requires ResolveFieldValue(lib, scope, v).Some? && DistinctNames(scope) && Absorbs(scope, v)
    ensures !KeepsMeaning(lib, scope, v)
  {
    hide DistinctNames, Represents, PathOf, Evaluate, Denotes, SampleWorld;
    var world := EmptyWorld(scope);
    EmptyCovers(scope);
    var env := NamedView(lib, scope, world);
    EmptyDenotesUnknown(lib, scope, v);
    EmptyEvaluates(lib, scope, env, v);
  }

  ghost function EmptyWorld(scope: Scope): World {
    World(
      map id | id in scope.variables :: Unknown,
      map id | id in scope.modules :: SampleInstances(scope.modules[id].multiplicity.kind, false),
      t => Unknown, t => Unknown)
  }

  lemma {:induction false} EmptyCovers(scope: Scope)
    ensures Covers(EmptyWorld(scope), scope)
  {
  }

  lemma {:induction false} EmptyDenotesUnknown(lib: Library, scope: Scope, v: FieldValue)
    requires ResolveFieldValue(lib, scope, v).Some? && Absorbs(scope, v) && Covers(EmptyWorld(scope), scope)
    ensures Denotes(scope, EmptyWorld(scope), v) == Unknown
  {
    hide PathOf, ModuleOutput;
    var world := EmptyWorld(scope);
    assert world.modules[v.refNodeID] == Counted([]);
    var none := OutputsOf([], PathOf(v.refOutput));
    assert none == [];
    assert v.refOutputSelector.value.expr.Some?;
  }

  lemma {:induction false} EmptyEvaluates(lib: Library, scope: Scope, env: Env, v: FieldValue)
    requires ResolveFieldValue(lib, scope, v).Some? && Absorbs(scope, v)
    requires Covers(EmptyWorld(scope), scope) && Represents(lib, env, EmptyWorld(scope), scope)
    ensures Evaluate(env, ResolveFieldValue(lib, scope, v).value).ListOf?
  {
    hide PathOf, ModuleOutput, Represents;
    var m, path := scope.modules[v.refNodeID], PathOf(v.refOutput);
    ModuleOutputIsOneOf(lib, scope, m, v.refOutput, v.refSelector);
    SplatPath(Module(m.localName), path);
    assert ResolveFieldValue(lib, scope, v).value.Splat?;
  }

  /**
    A field and all the indexes and keys it uses keep their meaning, whatever the values of the nodes,
    exactly when no reference among them selects one element of an output of all instances of a
    counted module; outputs that are not dotted identifiers are read as the library reads them.
   */
  lemma {:induction false} MeaningKeptIff(lib: Library, scope: Scope, v: FieldValue)
    requires ResolveFieldValue(lib, scope, v).Some? && DistinctNames(scope)
    ensures AllKeepMeaning(lib, scope, v) ==> NoneAbsorbs(scope, v)
    ensures PlainOutputs(lib, scope, v) ==> (AllKeepMeaning(lib, scope, v) <==> NoneAbsorbs(scope, v))
    decreases v
  {
    hide KeepsMeaning, ResolveFieldValue, Used, DistinctNames, FitsItself;
    ResolvesIff(lib, scope, v);
    forall u | u in Used(scope, v) && u < v
      ensures ResolveFieldValue(lib, scope, u).Some?
      ensures AllKeepMeaning(lib, scope, u) ==> NoneAbsorbs(scope, u)
      ensures PlainOutputs(lib, scope, u) ==> (AllKeepMeaning(lib, scope, u) <==> NoneAbsorbs(scope, u))
    {
      ResolvesIff(lib, scope, u);
      MeaningKeptIff(lib, scope, u);
    }
    if Absorbs(scope, v) {
      AbsorbedLosesMeaning(lib, scope, v);
    }
    if NoneAbsorbs(scope, v) && PlainOutputs(lib, scope, v) {
      PlainKeepsMeaning(lib, scope, v);
    }
  }

  lemma {:induction false} PlainKeepsMeaning(lib: Library, scope: Scope, v: FieldValue)
    requires ResolveFieldValue(lib, scope, v).Some? && NoneAbsorbs(scope, v) && PlainOutputs(lib, scope, v)
    ensures KeepsMeaning(lib, scope, v)
  {
    hide Covers, Represents, Evaluate, Denotes;
    forall world, env | Covers(world, scope) && Represents(lib, env, world, scope)
      ensures Evaluate(env, ResolveFieldValue(lib, scope, v).value) == Denotes(scope, world, v)
    {
      ResolvedMeans(lib, scope, world, env, v);
    }
  }

  /**
    One instance with the output [1, 2], of which all outputs and then element 0 are selected: the canvas
    means the first output, [1, 2], the emitted text the first element of every output, [1].
   */
  lemma {:induction false} IndexIsAbsorbed(lib: Library, scope: Scope, world: World, env: Env, v: FieldValue, output: string)
    requires Covers(world, scope) && Represents(lib, env, world, scope)
    requires ResolveFieldValue(lib, scope, v).Some? && Absorbs(scope, v)
    requires PathOf(v.refOutput) == [output] && ValidIdentifier(lib, output)
    requires v.refOutputSelector.value.expr == Some(FieldValue("literal", "0", "", "", None, None))
    requires world.modules[v.refNodeID] == Counted([map[output := ListOf([Number(1), Number(2)])]]) && world.typed("0") == Number(0)
    ensures Denotes(scope, world, v) == ListOf([Number(1), Number(2)])
    ensures Evaluate(env, ResolveFieldValue(lib, scope, v).value) == ListOf([Number(1)])
  {
    CanvasElement(lib, scope, world, v, output);
    EmittedElement(lib, scope, world, env, v, output);
  }

  lemma {:induction false} CanvasElement(lib: Library, scope: Scope, world: World, v: FieldValue, output: string)
    requires Covers(world, scope) && ResolveFieldValue(lib, scope, v).Some? && Absorbs(scope, v)
    requires PathOf(v.refOutput) == [output]
    requires v.refOutputSelector.value.expr == Some(FieldValue("literal", "0", "", "", None, None))
    requires world.modules[v.refNodeID] == Counted([map[output := ListOf([Number(1), Number(2)])]]) && world.typed("0") == Number(0)
    ensures Denotes(scope, world, v) == ListOf([Number(1), Number(2)])
  {
    hide ModuleOutput, PathOf;
    var each := world.modules[v.refNodeID].instances;
    OneStep(MapOf(each[0]), output);
    assert OutputsOf(each, [output])[0] == ListOf([Number(1), Number(2)]);
    assert Denotes(scope, world, v.refOutputSelector.value.expr.value) == Number(0);
  }

  lemma {:induction false} OneStep(v: Value, output: string)
    ensures AttributePath(v, [output]) == AttributeOf(v, output)
  {
    var none: seq<string> := [];
    assert [output][..0] == none;
    assert AttributePath(v, none) == v;
  }

  lemma {:induction false} EmittedElement(lib: Library, scope: Scope, world: World, env: Env, v: FieldValue, output: string)
    requires Covers(world, scope) && Represents(lib, env, world, scope)
    requires ResolveFieldValue(lib, scope, v).Some? && Absorbs(scope, v)
    requires PathOf(v.refOutput) == [output] && ValidIdentifier(lib, output)
    requires v.refOutputSelector.value.expr == Some(FieldValue("literal", "0", "", "", None, None))
    requires world.modules[v.refNodeID] == Counted([map[output := ListOf([Number(1), Number(2)])]]) && world.typed("0") == Number(0)
    ensures Evaluate(env, ResolveFieldValue(lib, scope, v).value) == ListOf([Number(1)])
  {
    hide PathOf, ResolveFieldValue, ValidIdentifier;
    var base, instance := Module(scope.modules[v.refNodeID].localName), MapOf(world.modules[v.refNodeID].instances[0]);
    var e := Splat(base, [Named(output), At(Typed("0"))]);
    EmittedText(lib, scope, v, output);
    ModuleMeans(lib, scope, world, env, v.refNodeID);
    assert SplatItems(Evaluate(env, base)) == [instance];
    TwoSteps(env, instance, output, e);
    assert env.access(instance, output) == AttributeOf(instance, output);
  }

  /** `module.m[*].output[0]` */
  lemma {:induction false} EmittedText(lib: Library, scope: Scope, v: FieldValue, output: string)
    requires ResolveFieldValue(lib, scope, v).Some? && Absorbs(scope, v) && PathOf(v.refOutput) == [output]
    requires v.refOutputSelector.value.expr == Some(FieldValue("literal", "0", "", "", None, None))
    ensures ResolveFieldValue(lib, scope, v).value ==
      Splat(Module(scope.modules[v.refNodeID].localName), [Named(output), At(Typed("0"))])
  {
    hide PathOf, ModuleOutput, WithPath;
    var m := scope.modules[v.refNodeID];
    ModuleOutputIsOneOf(lib, scope, m, v.refOutput, v.refSelector);
    SplatPath(Module(m.localName), [output]);
    assert ResolveFieldValue(lib, scope, v.refOutputSelector.value.expr.value) == Some(Typed("0"));
    assert NamedEach([output]) + [At(Typed("0"))] == [Named(output), At(Typed("0"))];
  }

  lemma {:induction false} TwoSteps(env: Env, v: Value, output: string, e: Expression)
    requires e.Splat? && e.each == [Named(output), At(Typed("0"))]
    ensures AccessorsInside(e.each, e)
    ensures Reach(env, v, e.each, e) == ElementOf(env.access(v, output), env.typed("0"))
  {
    var none: seq<Accessor> := [];
    assert e.each[..1] == [Named(output)] && [Named(output)][..0] == none;
    assert Reach(env, v, none, e) == v;
    assert Reach(env, v, [Named(output)], e) == env.access(v, output);
  }
}
