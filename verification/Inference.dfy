/**
  Output type inference over HCL expressions, as functions.

  `Run` is the inference as the code performs it: one pass that threads the memo table of local
  values and the set of locals being resolved. `Meaning` is an independent reference: the type an
  expression has under lexical scoping when the types of the locals are given. Explanatory reasons
  are not modelled, only types.
 */
module Inference {
  import opened Basics
  import opened CtyTypes
  import opened Builtins
  import opened Strings

  // ------------------------------------------------------------------ expressions

  /** One step of a traversal. An index that is not a literal string stops path extraction. */
  datatype Step = Root(name: string) | Attr(name: string) | StringIndex(name: string) | OtherStep

  /**
    An expression as far as inference looks at it. Operators carry their result type, a `for` only
    records whether it has a key expression and groups its results, and an object item carries the
    static name its key denotes, if any.
   */
  datatype Expr =
    | Literal(t: Type)
    | Template(parts: seq<Expr>)
    | TemplateWrap(wrapped: Expr)
    | Parentheses(inner: Expr)
    | ObjectConsKey(key: Expr)
    | ScopeTraversal(steps: seq<Step>)
    | RelativeTraversal(source: Expr, steps: seq<Step>)
    | Splat(source: Expr, each: Expr)
    | Index(collection: Expr)
    | Conditional(ifTrue: Expr, ifFalse: Expr)
    | TupleCons(exprs: seq<Expr>)
    | ObjectCons(items: seq<Item>)
    | For(keyVar: string, valVar: string, coll: Expr, keyed: bool, grouped: bool, val: Expr)
    | Call(name: string, args: seq<Expr>)
    | BinaryOp(t: Type)
    | UnaryOp(t: Type)
    | AnonSymbol
    | Unsupported

  datatype Item = Item(name: Option<string>, value: Expr)

  datatype ResourceRef = ResourceRef(typeName: string, isData: bool, repeated: bool)

  /** A provider schema as inference consults it. */
  datatype Resolver = Resolver(
    lookup: (string, string, bool) -> Option<Type>,
    attributes: (string, bool) -> Option<Type>)

  /** The symbols of one module, with the schema resolver and the attribute order of the pass. */
  datatype Symbols = Symbols(
    variables: map<string, Type>,
    locals: map<string, Expr>,
    resources: map<string, ResourceRef>,
    outputs: map<string, Expr>,
    resolver: Option<Resolver>,
    order: Order)

  type Scope = seq<map<string, Type>>
  type Cache = map<string, Type>

  // ------------------------------------------------------------------ references

  function TraversalNames(steps: seq<Step>): Option<seq<string>> {
    if steps == [] then Some([])
    else if steps[0].Attr? || steps[0].StringIndex? then
      match TraversalNames(steps[1..])
      case Some(rest) => Some([steps[0].name] + rest)
      case None => None
    else None
  }

  /** The root name and attribute path of an absolute reference. */
  function SplitTraversal(steps: seq<Step>): Option<(string, seq<string>)> {
    if steps == [] || !steps[0].Root? then None
    else
      match TraversalNames(steps[1..])
      case Some(path) => Some((steps[0].name, path))
      case None => None
  }

  function SplatEachPath(each: Expr): Option<seq<string>> {
    if each.RelativeTraversal? && each.source.AnonSymbol? then TraversalNames(each.steps) else None
  }

  function ApplyPath(t: Type, path: seq<string>): Type
    decreases |path|
  {
    if path == [] then t
    else
      match t
      case Object(attrs, _) => if path[0] in attrs then ApplyPath(attrs[path[0]], path[1..]) else Dynamic
      case Map(e) => ApplyPath(e, path[1..])
      case _ => Dynamic
  }

  /** Innermost binding first. */
  function LookupScope(scope: Scope, name: string): Option<Type> {
    if scope == [] then None
    else
      var last := scope[|scope| - 1];
      if name in last then Some(last[name]) else LookupScope(scope[..|scope| - 1], name)
  }

  function ResourceAttr(m: Symbols, ref: ResourceRef, path: seq<string>): Type {
    match m.resolver
    case None => Dynamic
    case Some(r) =>
      var found := if path == [] then r.attributes(ref.typeName, ref.isData)
                   else r.lookup(ref.typeName, Join(path, '.'), ref.isData);
      match found
      case Some(t) => t
      case None => Dynamic
  }

  function ResourceType(m: Symbols, addr: string, path: seq<string>): Type {
    if addr !in m.resources then Dynamic
    else
      var inner := ResourceAttr(m, m.resources[addr], path);
      if m.resources[addr].repeated && !inner.Dynamic? then List(inner) else inner
  }

  /** What a reference names: a local value still to be resolved, or something of known type. */
  datatype Target = ToLocal(name: string, rest: seq<string>) | ToType(t: Type)

  const META_ARGUMENTS: set<string> := {"each", "count", "self", "terraform", "path"}

  function Resolve(m: Symbols, scope: Scope, steps: seq<Step>): Target {
    match SplitTraversal(steps)
    case None => ToType(Dynamic)
    case Some((root, path)) =>
      match LookupScope(scope, root)
      case Some(t) => ToType(ApplyPath(t, path))
      case None => ResolveRoot(m, root, path)
  }

  function ResolveRoot(m: Symbols, root: string, path: seq<string>): Target {
    if root == "var" then
      if path != [] && path[0] in m.variables then ToType(ApplyPath(m.variables[path[0]], path[1..]))
      else ToType(Dynamic)
    else if root == "local" then
      if path == [] then ToType(Dynamic) else ToLocal(path[0], path[1..])
    else if root == "module" || root in META_ARGUMENTS then ToType(Dynamic)
    else if root == "data" then
      if |path| < 2 then ToType(Dynamic)
      else ToType(ResourceType(m, "data." + path[0] + "." + path[1], path[2..]))
    else if path == [] then ToType(Dynamic)
    else ToType(ResourceType(m, root + "." + path[0], path[1..]))
  }

  // ------------------------------------------------------------------ the type rules

  /** The arguments that a rule looks at. */
  function Arguments<T>(rule: Rule, args: seq<T>): seq<T> {
    match rule
    case Fixed(_) => []
    case NotModelled => []
    case UnifyArgs => args
    case Concat => args
    case Merge => args
    case LookupOf => if |args| == 3 then [args[0], args[2]] else if args == [] then [] else [args[0]]
    case Zipmap => if |args| < 2 then [] else [args[1]]
    case _ => if args == [] then [] else [args[0]]
  }

  /** Each of `es` is a proper part of `e`. */
  ghost predicate Inside(es: seq<Expr>, e: Expr) {
    forall i :: 0 <= i < |es| ==> es[i] < e
  }

  /** The sub-expressions whose types the type of `e` is computed from, in visiting order. */
  function Operands(e: Expr): (es: seq<Expr>)
    ensures Inside(es, e)
  {
    match e
    case Template(parts) => if |parts| == 1 then parts else []
    case TemplateWrap(x) => [x]
    case Parentheses(x) => [x]
    case ObjectConsKey(x) => [x]
    case RelativeTraversal(x, _) => [x]
    case Splat(x, _) => [x]
    case Index(x) => [x]
    case Conditional(x, y) => [x, y]
    case TupleCons(es) => es
    case ObjectCons(items) => seq(|items|, i requires 0 <= i < |items| => items[i].value)
    case Call(name, args) => Arguments(RuleFor(name), args)
    case _ => []
  }

  function WrapKnown(t: Type, wrap: Type -> Type): Type {
    if t.Dynamic? then Dynamic else wrap(t)
  }

  function SplatType(order: Order, src: Type, each: Expr): Type {
    var elem := if IsSequence(src) then ElementTypeOf(order, src) else src;
    match SplatEachPath(each)
    case None => List(elem)
    case Some(path) => WrapKnown(ApplyPath(elem, path), t => List(t))
  }

  function NamedValues(items: seq<Item>, ts: seq<Type>): map<string, Type>
    requires |items| == |ts|
  {
    if items == [] then map[]
    else
      var n := |items| - 1;
      var before := NamedValues(items[..n], ts[..n]);
      if items[n].name.Some? then before[items[n].name.value := ts[n]] else before
  }

  predicate AllNamed(items: seq<Item>) {
    forall i :: 0 <= i < |items| ==> items[i].name.Some?
  }

  function ObjectType(items: seq<Item>, ts: seq<Type>): Type
    requires |items| == |ts|
  {
    if AllNamed(items) then NewObject(NamedValues(items, ts))
    else WrapKnown(UnifyAll(ts), t => Map(t))
  }

  function ElementTypes(order: Order, ts: seq<Type>): seq<Type> {
    seq(|ts|, i requires 0 <= i < |ts| => ElementTypeOf(order, ts[i]))
  }

  predicate AllObjects(ts: seq<Type>) {
    forall i :: 0 <= i < |ts| ==> ts[i].Object?
  }

  /** Attributes of later arguments replace those of earlier ones. */
  function MergedAttrs(ts: seq<Type>): map<string, Type>
    requires AllObjects(ts)
  {
    if ts == [] then map[] else MergedAttrs(ts[..|ts| - 1]) + ts[|ts| - 1].attrs
  }

  function CallType(order: Order, rule: Rule, ts: seq<Type>): Type {
    match rule
    case Fixed(t) => t
    case NotModelled => Dynamic
    case UnifyArgs => UnifyAll(ts)
    case Concat => WrapKnown(UnifyAll(ElementTypes(order, ts)), t => List(t))
    case Merge =>
      if ts == [] then Dynamic
      else if AllObjects(ts) then NewObject(MergedAttrs(ts))
      else WrapKnown(UnifyAll(ElementTypes(order, ts)), t => Map(t))
    case _ => if ts == [] then Dynamic else ElementRule(order, rule, ts)
  }

  /** Functions whose result is made from the element type of one argument. */
  function ElementRule(order: Order, rule: Rule, ts: seq<Type>): Type
    requires ts != []
  {
    var elem := ElementTypeOf(order, ts[0]);
    match rule
    case LookupOf => if |ts| == 2 then Unify(elem, ts[1]) else elem
    case ElementOf => elem
    case ToSet => WrapKnown(elem, t => Set(t))
    case ToMap => WrapKnown(elem, t => Map(t))
    case Zipmap => WrapKnown(elem, t => Map(t))
    case Flatten => FlattenType(order, ts[0])
    case _ => WrapKnown(elem, t => List(t))
  }

  /** The type of `e` from the types of its operands; `for` and absolute references have their own rules. */
  function TypeRule(m: Symbols, e: Expr, ts: seq<Type>): Type
    requires |ts| == |Operands(e)|
  {
    match e
    case Literal(t) => t
    case BinaryOp(t) => t
    case UnaryOp(t) => t
    case Template(parts) => if |parts| == 1 then ts[0] else String
    case TemplateWrap(_) => ts[0]
    case Parentheses(_) => ts[0]
    case ObjectConsKey(_) => ts[0]
    case RelativeTraversal(_, steps) =>
      (match TraversalNames(steps)
       case Some(path) => ApplyPath(ts[0], path)
       case None => Dynamic)
    case Splat(_, each) => SplatType(m.order, ts[0], each)
    case Index(_) => ElementTypeOf(m.order, ts[0])
    case Conditional(_, _) => Unify(ts[0], ts[1])
    case TupleCons(_) => Tuple(ts)
    case ObjectCons(items) => ObjectType(items, ts)
    case Call(name, args) => CallType(m.order, RuleFor(name), ts)
    case _ => Dynamic
  }

  function Bindings(order: Order, e: Expr, collection: Type): map<string, Type>
    requires e.For?
  {
    var keys := if e.keyVar != "" then map[e.keyVar := ForKeyType(collection)] else map[];
    if e.valVar != "" then keys[e.valVar := ElementTypeOf(order, collection)] else keys
  }

  function ForType(e: Expr, val: Type): Type
    requires e.For?
  {
    WrapKnown(val, t => if e.keyed then Map(t) else List(t))
  }

  // ------------------------------------------------------------------ the pass

  datatype Outcome = Outcome(t: Type, cache: Cache)
  datatype Outcomes = Outcomes(ts: seq<Type>, cache: Cache)

  function Run(m: Symbols, scope: Scope, busy: set<string>, cache: Cache, e: Expr): Outcome
    decreases m.locals.Keys - busy, e
  {
    match e
    case ScopeTraversal(steps) =>
      (match Resolve(m, scope, steps)
       case ToType(t) => Outcome(t, cache)
       case ToLocal(name, rest) =>
         var r := RunLocal(m, scope, busy, cache, name, e);
         Outcome(ApplyPath(r.t, rest), r.cache))
    case For(_, _, coll, _, _, val) =>
      var c := Run(m, scope, busy, cache, coll);
      var v := Run(m, scope + [Bindings(m.order, e, c.t)], busy, c.cache, val);
      Outcome(ForType(e, v.t), v.cache)
    case _ =>
      var r := RunAll(m, scope, busy, cache, e, Operands(e));
      Outcome(TypeRule(m, e, r.ts), r.cache)
  }

  /** `at` is the reference being followed; it only bounds the recursion. */
  function RunLocal(m: Symbols, scope: Scope, busy: set<string>, cache: Cache, name: string, at: Expr): Outcome
    decreases m.locals.Keys - busy, at, 0
  {
    if name in cache then Outcome(cache[name], cache)
    else if name in busy || name !in m.locals then Outcome(Dynamic, cache)
    else
      var r := Run(m, scope, busy + {name}, cache, m.locals[name]);
      Outcome(r.t, r.cache[name := r.t])
  }

  function RunAll(m: Symbols, scope: Scope, busy: set<string>, cache: Cache, within: Expr, es: seq<Expr>): (r: Outcomes)
    requires Inside(es, within)
    ensures |r.ts| == |es|
    decreases m.locals.Keys - busy, within, |es|
  {
    if es == [] then Outcomes([], cache)
    else
      var first := Run(m, scope, busy, cache, es[0]);
      var rest := RunAll(m, scope, busy, first.cache, within, es[1..]);
      Outcomes([first.t] + rest.ts, rest.cache)
  }

  datatype Confidence = Exact | Inferred | Unknown
  datatype Graded = Graded(t: Type, confidence: Confidence)

  function ConfidenceFor(t: Type): Confidence {
    if t.Dynamic? then Unknown else if ContainsDynamic(t) then Inferred else Exact
  }

  function Grade(t: Type): Graded {
    Graded(t, ConfidenceFor(t))
  }

  /** The memo table after the output `name` has been classified. */
  function NextCache(m: Symbols, cache: Cache, name: string): Cache {
    if name in m.outputs then Run(m, [], {}, cache, m.outputs[name]).cache else cache
  }

  function GradeOf(m: Symbols, cache: Cache, name: string): Graded {
    if name in m.outputs then Grade(Run(m, [], {}, cache, m.outputs[name]).t) else Graded(Dynamic, Unknown)
  }

  /** The classification of the named outputs, visited in this order with a shared memo table. */
  function OutputsFrom(m: Symbols, cache: Cache, names: seq<string>): map<string, Graded>
    decreases |names|
  {
    if names == [] then map[]
    else
      var name := names[0];
      map[name := GradeOf(m, cache, name)] + OutputsFrom(m, NextCache(m, cache, name), names[1..])
  }

  // ------------------------------------------------------------------ the reference

  /** The type of `e` when `types` gives the types of the locals: no cache, no cycle cut, lexical scope. */
  function Meaning(m: Symbols, types: map<string, Type>, scope: Scope, e: Expr): Type
    decreases e
  {
    match e
    case ScopeTraversal(steps) =>
      (match Resolve(m, scope, steps)
       case ToType(t) => t
       case ToLocal(name, rest) => ApplyPath(if name in types then types[name] else Dynamic, rest))
    case For(_, _, coll, _, _, val) =>
      var c := Meaning(m, types, scope, coll);
      ForType(e, Meaning(m, types, scope + [Bindings(m.order, e, c)], val))
    case _ => TypeRule(m, e, Meanings(m, types, scope, e, Operands(e)))
  }

  function Meanings(m: Symbols, types: map<string, Type>, scope: Scope, within: Expr, es: seq<Expr>): (ts: seq<Type>)
    requires Inside(es, within)
    ensures |ts| == |es|
    decreases within, |es|
  {
    if es == [] then [] else [Meaning(m, types, scope, es[0])] + Meanings(m, types, scope, within, es[1..])
  }

  /** `types` satisfies the defining equation of every local, each body read in the empty scope. */
  ghost predicate Solution(m: Symbols, types: map<string, Type>) {
    && types.Keys == m.locals.Keys
    && forall n :: n in m.locals ==> types[n] == Meaning(m, types, [], m.locals[n])
  }

  // ------------------------------------------------------------------ names in expressions

  function Parts(e: Expr): (es: seq<Expr>)
    ensures Inside(es, e)
  {
    if e.For? then [e.coll, e.val] else Operands(e)
  }

  /** The locals `e` mentions. */
  function LocalRefs(e: Expr): set<string> {
    if e.ScopeTraversal? then
      match SplitTraversal(e.steps)
      case Some((root, path)) => if root == "local" && path != [] then {path[0]} else {}
      case None => {}
    else
      set i, n | 0 <= i < |Parts(e)| && n in LocalRefs(Parts(e)[i]) :: n
  }

  function IteratorNames(e: Expr): set<string>
    requires e.For?
  {
    (if e.keyVar != "" then {e.keyVar} else {}) + (if e.valVar != "" then {e.valVar} else {})
  }

  /** Every iterator name bound by a `for` inside `e`. */
  function Iterators(e: Expr): set<string> {
    (if e.For? then IteratorNames(e) else {}) + set i, n | 0 <= i < |Parts(e)| && n in Iterators(Parts(e)[i]) :: n
  }

  /** The root names of references in `e` that no `for` inside `e` binds. */
  function FreeRoots(e: Expr): set<string> {
    if e.ScopeTraversal? then
      match SplitTraversal(e.steps)
      case Some((root, _)) => {root}
      case None => {}
    else if e.For? then
      FreeRoots(e.coll) + (FreeRoots(e.val) - IteratorNames(e))
    else
      set i, n | 0 <= i < |Operands(e)| && n in FreeRoots(Operands(e)[i]) :: n
  }

  function ScopeNames(scope: Scope): set<string> {
    set i, n | 0 <= i < |scope| && n in scope[i] :: n
  }

  // ------------------------------------------------------------------ well-behaved modules

  /** `rank` shows that local references cannot form a cycle. */
  ghost predicate Ranks(rank: map<string, nat>, m: Symbols) {
    && rank.Keys == m.locals.Keys
    && forall n, d :: n in m.locals && d in LocalRefs(m.locals[n]) && d in m.locals ==> rank[d] < rank[n]
  }

  ghost predicate Acyclic(m: Symbols) {
    exists rank :: Ranks(rank, m)
  }

  /** None of the iterator names `names` is the root of a free reference in a local's body. */
  ghost predicate CaptureFree(m: Symbols, names: set<string>) {
    && (forall n :: n in m.locals ==> Iterators(m.locals[n]) <= names)
    && (forall n :: n in m.locals ==> FreeRoots(m.locals[n]) !! names)
  }
}
