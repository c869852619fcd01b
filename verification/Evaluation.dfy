/**
  What expressions evaluate to, for output inference to be judged by. Evaluation follows the language
  and not the type rules: an expression yields every value that it can have, where what the syntax of
  `Inference.Expr` leaves out (conditions, keys, filters, operands of operators) may be anything.
  A value need not exist; an expression whose evaluation fails yields none.
 */
module Evaluation {
  import opened Basics
  import opened CtyValues
  import opened Builtins
  import opened Inference

  /** The values of what a module names. A resource with `count` is the list of its instances. */
  datatype World = World(variables: map<string, Data>, locals: map<string, Data>, resources: map<string, Data>)

  /** The iterators in scope, innermost last, and the element a splat is applied to. */
  datatype Env = Env(iterators: seq<map<string, Data>>, element: Option<Data>)

  const OUTSIDE := Env([], None)

  function IteratorValue(iterators: seq<map<string, Data>>, name: string): Option<Data> {
    if iterators == [] then None
    else
      var last := iterators[|iterators| - 1];
      if name in last then Some(last[name]) else IteratorValue(iterators[..|iterators| - 1], name)
  }

  /** The value behind a path of names. */
  function Walk(v: Data, path: seq<string>): Option<Data>
    decreases |path|
  {
    if path == [] then Some(v)
    else if v.MapOf? && path[0] in v.entries then Walk(v.entries[path[0]], path[1..])
    else None
  }

  /** `v` is reached from `u`; where an index that is not a name leads is left open. */
  predicate Reaches(u: Data, steps: seq<Step>, v: Data) {
    match TraversalNames(steps)
    case Some(path) => Walk(u, path) == Some(v)
    case None => true
  }

  predicate Named(values: map<string, Data>, path: seq<string>, v: Data) {
    path != [] && path[0] in values && Walk(values[path[0]], path[1..]) == Some(v)
  }

  predicate OfResource(w: World, addr: string, path: seq<string>, v: Data) {
    addr in w.resources && Walk(w.resources[addr], path) == Some(v)
  }

  /** What a reference by name may refer to: iterators hide everything else. */
  predicate Refers(w: World, env: Env, steps: seq<Step>, v: Data) {
    match SplitTraversal(steps)
    case None => true
    case Some((root, path)) =>
      if IteratorValue(env.iterators, root).Some? then Walk(IteratorValue(env.iterators, root).value, path) == Some(v)
      else if root == "var" then Named(w.variables, path, v)
      else if root == "local" then Named(w.locals, path, v)
      else if root in {"module", "each", "count", "self", "terraform", "path"} then true
      else if root == "data" then |path| >= 2 && OfResource(w, "data." + path[0] + "." + path[1], path[2..], v)
      else path != [] && OfResource(w, root + "." + path[0], path[1..], v)
  }

  /** What a splat goes over: a value that is no collection counts as a list of one, and null as none. */
  function SplatItems(u: Data): seq<Data> {
    if u.SeqOf? || u.SetOf? then u.items else if u.Null? then [] else [u]
  }

  /** The items become the entries of an object; the last item of a name counts, and keys that are not static may be anything. */
  ghost predicate BuiltFrom(items: seq<Item>, vs: seq<Data>, entries: map<string, Data>) {
    && |items| == |vs|
    && (forall i :: 0 <= i < |items| && items[i].name.Some? ==> items[i].name.value in entries)
    && forall k :: k in entries ==> exists i :: 0 <= i < |items| && IsEntry(items, vs, k, i) && entries[k] == vs[i]
  }

  ghost predicate IsEntry(items: seq<Item>, vs: seq<Data>, k: string, i: nat)
    requires |items| == |vs| && i < |items|
  {
    && (items[i].name == None || items[i].name == Some(k))
    && forall j :: i < j < |items| ==> items[j].name != Some(k)
  }

  /** The iterators of a `for` at one step; a key of the same name is hidden by the value. */
  function Iteration(keyVar: string, valVar: string, k: Data, x: Data): map<string, Data> {
    (if keyVar != "" then map[keyVar := k] else map[]) + if valVar != "" then map[valVar := x] else map[]
  }

  ghost predicate Yields(w: World, env: Env, e: Expr, v: Data)
    decreases e
  {
    match e
    case Literal(t) => HasType(v, t)
    case BinaryOp(t) => HasType(v, t)
    case UnaryOp(t) => HasType(v, t)
    case Template(_) => v.Text?
    case TemplateWrap(x) => Yields(w, env, x, v)
    case Parentheses(x) => Yields(w, env, x, v)
    case ObjectConsKey(x) => Yields(w, env, x, v)
    case ScopeTraversal(steps) => Refers(w, env, steps, v)
    case RelativeTraversal(x, steps) => exists u :: Yields(w, env, x, u) && Reaches(u, steps, v)
    case Splat(x, each) =>
      v.SeqOf? && exists u ::
        && Yields(w, env, x, u)
        && |v.items| == |SplatItems(u)|
        && forall i :: 0 <= i < |v.items| ==> Yields(w, env.(element := Some(SplatItems(u)[i])), each, v.items[i])
    case Index(x) => exists u :: Yields(w, env, x, u) && IsMember(u, v)
    case Conditional(x, y) => Yields(w, env, x, v) || Yields(w, env, y, v)
    case TupleCons(es) => v.SeqOf? && AllYield(w, env, e, es, v.items)
    case ObjectCons(_) => v.MapOf? && exists vs :: AllYield(w, env, e, ItemValues(e), vs) && BuiltFrom(e.items, vs, v.entries)
    case For(keyVar, valVar, coll, keyed, grouped, val) =>
      exists u :: Yields(w, env, coll, u) &&
        if !keyed then v.SeqOf? && forall r :: r in v.items ==> YieldedInside(w, env, e, u, r)
        else if grouped then
          v.MapOf? && forall n :: n in v.entries ==> v.entries[n].SeqOf? && forall r :: r in v.entries[n].items ==> YieldedInside(w, env, e, u, r)
        else v.MapOf? && forall n :: n in v.entries ==> YieldedInside(w, env, e, u, v.entries[n])
    case Call(name, args) =>
      && ReturnsKnown(name, v)
      && if name in UNIFYING_FUNCTIONS then exists i :: 0 <= i < |args| && Yields(w, env, args[i], v)
      else exists vs: seq<Data> :: AllYield(w, env, e, args, vs) && Returns(name, vs, v)
    case AnonSymbol => env.element == Some(v)
    case Unsupported => true
  }

  /** The value expressions of the items of an object. */
  function ItemValues(e: Expr): (es: seq<Expr>)
    requires e.ObjectCons?
    ensures Inside(es, e)
  {
    seq(|e.items|, i requires 0 <= i < |e.items| => e.items[i].value)
  }

  ghost predicate AllYield(w: World, env: Env, within: Expr, es: seq<Expr>, vs: seq<Data>)
    requires Inside(es, within)
    decreases within, 0
  {
    |vs| == |es| && forall i :: 0 <= i < |es| ==> Yields(w, env, es[i], vs[i])
  }

  /** The body yields `r` at some step over `u`. */
  ghost predicate YieldedInside(w: World, env: Env, e: Expr, u: Data, r: Data)
    requires e.For?
    decreases e, 0
  {
    exists k, x :: Visits(u, k, x) && Yields(w, env.(iterators := env.iterators + [Iteration(e.keyVar, e.valVar, k, x)]), e.val, r)
  }

  // ------------------------------------------------------------------ functions

  /** `x` is found by unpacking nested sequences in `u`. */
  ghost predicate IsLeaf(u: Data, x: Data) {
    if u.SeqOf? || u.SetOf? then exists i :: 0 <= i < |u.items| && IsLeaf(u.items[i], x) else x == u
  }

  ghost predicate MembersOf(us: seq<Data>, vs: seq<Data>) {
    forall v :: v in vs ==> exists i :: 0 <= i < |us| && IsMember(us[i], v)
  }

  /** Entries of later arguments replace those of earlier ones. */
  ghost predicate Merged(us: seq<Data>, entries: map<string, Data>) {
    && (forall i :: 0 <= i < |us| ==> NamesOnly(us[i], entries.Keys))
    && forall k :: k in entries ==> exists i :: 0 <= i < |us| && FromArgument(us, k, entries[k], i)
  }

  predicate NamesOnly(u: Data, names: set<string>) {
    u.MapOf? && u.entries.Keys <= names
  }

  ghost predicate FromArgument(us: seq<Data>, k: string, v: Data, i: nat)
    requires i < |us|
  {
    && us[i].MapOf? && k in us[i].entries && v == us[i].entries[k]
    && forall j :: i < j < |us| && us[j].MapOf? ==> k !in us[j].entries
  }

  /** Functions whose result depends on what a pattern or a file contains. */
  const CONTENT_FUNCTIONS: set<string> := {"regexall", "templatefile"}

  /** The results of functions that always return strings, numbers, truth values or lists of strings. */
  predicate ReturnsKnown(name: string, v: Data) {
    && (name in STRING_FUNCTIONS && name !in CONTENT_FUNCTIONS ==> v.Text? || v.Null?)
    && (name in NUMBER_FUNCTIONS ==> v.Num? || v.Null?)
    && (name in BOOL_FUNCTIONS ==> v.Truth? || v.Null?)
    && (name in STRING_LIST_FUNCTIONS && name !in CONTENT_FUNCTIONS ==> v.SeqOf? && forall x :: x in v.items ==> x.Text?)
  }

  /** What the language documents of functions whose result depends on their arguments; of others nothing is known. */
  ghost predicate Returns(name: string, us: seq<Data>, v: Data) {
    && (name == "one" ==> us != [] && (IsMember(us[0], v) || v.Null?))
    && (name == "element" ==> us != [] && IsMember(us[0], v))
    && (name == "lookup" ==> us != [] && (IsMember(us[0], v) || (|us| == 3 && v == us[2])))
    && (name in {"tolist", "values", "distinct", "reverse", "slice"} ==> us != [] && v.SeqOf? && MembersOf([us[0]], v.items))
    && (name in {"sort", "compact"} ==> us != [] && v.SeqOf? && forall x :: x in v.items ==> x.Text?)
    && (name == "chunklist" ==> us != [] && v.SeqOf? && forall x :: x in v.items ==> x.SeqOf? && MembersOf([us[0]], x.items))
    && (name == "toset" ==> us != [] && v.SetOf? && MembersOf([us[0]], v.items))
    && (name == "tomap" ==> us != [] && v.MapOf? && forall k :: k in v.entries ==> IsMember(us[0], v.entries[k]))
    && (name == "concat" ==> v.SeqOf? && MembersOf(us, v.items))
    && (name in {"setunion", "setintersection", "setsubtract"} ==> v.SetOf? && MembersOf(us, v.items))
    && (name == "flatten" ==> us != [] && (us[0].SeqOf? || us[0].SetOf?) && v.SeqOf? && forall x :: x in v.items ==> IsLeaf(us[0], x))
    && (name == "merge" ==> us != [] && v.MapOf? && Merged(us, v.entries))
    && (name == "zipmap" ==> |us| == 2 && v.MapOf? && forall k :: k in v.entries ==> IsMember(us[1], v.entries[k]))
  }
}
