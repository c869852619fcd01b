/**
  Output inference against evaluation: where the code merges types without loss, every value that an
  expression yields is of the type inferred for it.
 */
module InferenceSoundness {
  import opened Basics
  import opened Strings
  import opened CtyTypes
  import opened CtyValues
  import opened Builtins
  import opened Inference
  import opened InferenceLaws
  import opened Evaluation

  // ------------------------------------------------------------------ where inference is safe

  /** Every level of nesting that is unpacked merges without loss. */
  predicate FlattenSafe(order: Order, t: Type)
    decreases if t.Dynamic? then 0 else 1, t
  {
    if IsSequence(t) then
      UnifyAllIsAlternative(if t.Tuple? then t.elems else []);
      ElementSafe(order, t) && FlattenSafe(order, ElementTypeOf(order, t))
    else true
  }

  /**
    The conditions on a call, by function. Set operations return a set where the code infers a list, chunks
    are lists of lists, sorting and compacting turn elements into strings, and what patterns and template
    files contain is not known.
   */
  predicate CallSafe(order: Order, name: string, ts: seq<Type>) {
    && name !in CONTENT_FUNCTIONS
    && (name in UNIFYING_FUNCTIONS ==> MergeSafe(ts))
    && (name == "concat" ==> MergeSafe(ElementTypes(order, ts)) && forall i :: 0 <= i < |ts| ==> ElementSafe(order, ts[i]))
    && (name in {"setunion", "setintersection", "setsubtract"} ==> UnifyAll(ElementTypes(order, ts)).Dynamic?)
    && (name == "merge" && !AllObjects(ts) ==>
         MergeSafe(ElementTypes(order, ts)) && forall i :: 0 <= i < |ts| ==> ElementSafe(order, ts[i]))
    && (ts != [] ==>
         && (name in {"one", "element", "tolist", "toset", "tomap", "values", "distinct", "reverse", "slice", "zipmap"} ==> ElementSafe(order, ts[0]))
         && (name in {"sort", "compact"} ==> Refines(String, ElementTypeOf(order, ts[0])))
         && (name == "chunklist" ==> ElementTypeOf(order, ts[0]).Dynamic?)
         && (name == "flatten" ==> FlattenSafe(order, ts[0]))
         && (name == "lookup" ==> ElementSafe(order, ts[0]))
         && (name == "lookup" && |ts| == 2 ==> MergeSafe([ElementTypeOf(order, ts[0]), ts[1]])))
  }

  /** The conditions on an expression, given the types of its operands. */
  predicate NodeSafe(order: Order, e: Expr, ts: seq<Type>)
    requires |ts| == |Operands(e)|
  {
    match e
    case Template(parts) => |parts| == 1 ==> Refines(String, ts[0])
    case Splat(_, each) => (IsSequence(ts[0]) ==> ElementSafe(order, ts[0])) && (each.AnonSymbol? || SplatEachPath(each).Some?)
    case Index(_) => ElementSafe(order, ts[0])
    case Conditional(_, _) => MergeSafe(ts)
    case ObjectCons(items) => !AllNamed(items) ==> MergeSafe(ts)
    case Call(name, _) => CallSafe(order, name, ts)
    case _ => true
  }

  /** The types of the iterators of a `for` over a collection of type `c`. */
  function IteratorTypes(order: Order, e: Expr, c: Type): map<string, Type>
    requires e.For?
  {
    (if e.keyVar != "" then map[e.keyVar := ForKeyType(c)] else map[])
    + if e.valVar != "" then map[e.valVar := ElementTypeOf(order, c)] else map[]
  }

  /** A `for` must not group, and binds a key only where the key type is right. */
  predicate ForSafe(order: Order, e: Expr, c: Type)
    requires e.For?
  {
    !e.grouped && ElementSafe(order, c) && (e.keyVar != "" ==> KeySafe(c))
  }

  /** The conditions hold throughout `e`. */
  predicate Safe(m: Symbols, types: map<string, Type>, scope: Scope, e: Expr)
    decreases e
  {
    if e.For? then
      var c := Meaning(m, types, scope, e.coll);
      && ForSafe(m.order, e, c)
      && Safe(m, types, scope, e.coll)
      && Safe(m, types, scope + [IteratorTypes(m.order, e, c)], e.val)
    else
      var es := Operands(e);
      && NodeSafe(m.order, e, Meanings(m, types, scope, e, es))
      && forall i :: 0 <= i < |es| ==> Safe(m, types, scope, es[i])
  }

  // ------------------------------------------------------------------ values that fit the declarations

  /** What lies behind `path` in an instance is of the type the provider schema has for it. */
  ghost predicate InstanceFits(m: Symbols, ref: ResourceRef, instance: Data) {
    m.resolver.Some? ==>
      && (m.resolver.value.attributes(ref.typeName, ref.isData).Some? ==>
           HasType(instance, m.resolver.value.attributes(ref.typeName, ref.isData).value))
      && forall path, v :: path != [] && Walk(instance, path) == Some(v) ==>
           var t := m.resolver.value.lookup(ref.typeName, Join(path, '.'), ref.isData);
           t.Some? ==> HasType(v, t.value)
  }

  ghost predicate ResourceFits(m: Symbols, ref: ResourceRef, whole: Data) {
    if ref.repeated then whole.SeqOf? && forall i :: 0 <= i < |whole.items| ==> InstanceFits(m, ref, whole.items[i])
    else InstanceFits(m, ref, whole)
  }

  ghost predicate DeclarationsFit(m: Symbols, w: World) {
    && (forall n :: n in m.variables && n in w.variables ==> HasType(w.variables[n], m.variables[n]))
    && (forall a :: a in m.resources && a in w.resources ==> ResourceFits(m, m.resources[a], w.resources[a]))
  }

  /** Every local has a value that its definition yields. */
  ghost predicate LocalsEvaluate(m: Symbols, w: World) {
    forall n :: n in w.locals ==> n in m.locals && Yields(w, OUTSIDE, m.locals[n], w.locals[n])
  }

  ghost predicate LocalsFit(w: World, types: map<string, Type>, names: set<string>) {
    forall n :: n in names && n in w.locals && n in types ==> HasType(w.locals[n], types[n])
  }

  ghost predicate EnvFits(scope: Scope, iterators: seq<map<string, Data>>) {
    && |scope| == |iterators|
    && forall i :: 0 <= i < |scope| ==>
      scope[i].Keys == iterators[i].Keys && forall n :: n in scope[i] ==> HasType(iterators[i][n], scope[i][n])
  }

  lemma {:induction false} IteratorHasType(scope: Scope, iterators: seq<map<string, Data>>, name: string)
    requires EnvFits(scope, iterators)
    ensures LookupScope(scope, name).Some? <==> IteratorValue(iterators, name).Some?
    ensures LookupScope(scope, name).Some? ==> HasType(IteratorValue(iterators, name).value, LookupScope(scope, name).value)
    decreases |scope|
  {
    hide HasType;
    if scope != [] {
      IteratorHasType(scope[..|scope| - 1], iterators[..|scope| - 1], name);
    }
  }

  lemma {:induction false} WalkHasType(v: Data, t: Type, path: seq<string>)
    requires HasType(v, t) && Walk(v, path).Some?
    ensures HasType(Walk(v, path).value, ApplyPath(t, path))
    decreases |path|
  {
    if path != [] {
      match t
      case Object(attrs, _) => WalkHasType(v.entries[path[0]], attrs[path[0]], path[1..]);
      case Map(e) => WalkHasType(v.entries[path[0]], e, path[1..]);
      case _ =>
    }
  }

  // ------------------------------------------------------------------ references

  lemma {:induction false} ResourceHasType(m: Symbols, w: World, addr: string, path: seq<string>, v: Data)
    requires DeclarationsFit(m, w) && OfResource(w, addr, path, v)
    ensures HasType(v, ResourceType(m, addr, path))
  {
    if addr in m.resources && m.resolver.Some? {
      var ref, whole := m.resources[addr], w.resources[addr];
      assert ResourceFits(m, ref, whole);
      if ref.repeated {
        assert path == [];
        assert forall i :: 0 <= i < |whole.items| ==> InstanceFits(m, ref, whole.items[i]);
      }
    }
  }

  lemma {:induction false} ReferenceHasType(m: Symbols, types: map<string, Type>, w: World, scope: Scope, env: Env, e: Expr, v: Data)
    requires e.ScopeTraversal? && DeclarationsFit(m, w) && LocalsFit(w, types, LocalRefs(e)) && EnvFits(scope, env.iterators)
    requires w.locals.Keys <= types.Keys
    requires Refers(w, env, e.steps, v)
    ensures HasType(v, Meaning(m, types, scope, e))
  {
    hide HasType, EnvFits, ResourceType, TraversalNames, Join, Walk, ApplyPath, LookupScope, IteratorValue, DeclarationsFit;
    var target := SplitTraversal(e.steps);
    if target.Some? {
      var (root, path) := target.value;
      IteratorHasType(scope, env.iterators, root);
      if IteratorValue(env.iterators, root).Some? {
        WalkHasType(IteratorValue(env.iterators, root).value, LookupScope(scope, root).value, path);
      } else {
        NoIterators(root);
        NamedHasType(m, types, w, scope, e, root, path, v);
      }
    } else {
      AnyValue(v);
    }
  }

  lemma {:induction false} NoIterators(name: string)
    ensures IteratorValue([], name) == None
  {
  }

  lemma {:induction false} AnyValue(v: Data)
    ensures HasType(v, Dynamic)
  {
  }

  lemma {:induction false} NamedHasType(m: Symbols, types: map<string, Type>, w: World, scope: Scope, e: Expr, root: string, path: seq<string>, v: Data)
    requires e.ScopeTraversal? && SplitTraversal(e.steps) == Some((root, path)) && LookupScope(scope, root).None?
    requires DeclarationsFit(m, w) && LocalsFit(w, types, LocalRefs(e)) && w.locals.Keys <= types.Keys
    requires Refers(w, OUTSIDE, e.steps, v)
    ensures HasType(v, Meaning(m, types, scope, e))
  {
    NoIterators(root);
    hide HasType, IteratorValue, ResourceType, SplitTraversal, Walk, ApplyPath, LookupScope, ResourceFits;
    AnyValue(v);
    if root == "var" {
      if path[0] in m.variables {
        WalkHasType(w.variables[path[0]], m.variables[path[0]], path[1..]);
      }
    } else if root == "local" {
      WalkHasType(w.locals[path[0]], types[path[0]], path[1..]);
    } else if root == "data" {
      ResourceHasType(m, w, "data." + path[0] + "." + path[1], path[2..], v);
    } else if root != "module" && root !in META_ARGUMENTS {
      ResourceHasType(m, w, root + "." + path[0], path[1..], v);
    }
  }

  // ------------------------------------------------------------------ the rules of collections

  lemma {:induction false} SplatSound(order: Order, w: World, env: Env, src: Type, each: Expr, u: Data, v: Data)
    requires Lawful(order) && HasType(u, src)
    requires (IsSequence(src) ==> ElementSafe(order, src)) && (each.AnonSymbol? || SplatEachPath(each).Some?)
    requires v.SeqOf? && |v.items| == |SplatItems(u)|
    requires forall i :: 0 <= i < |v.items| ==> Yields(w, env.(element := Some(SplatItems(u)[i])), each, v.items[i])
    ensures HasType(v, SplatType(order, src, each))
  {
    hide HasType, ElementSafe, ElementTypeOf, ApplyPath, Yields, SplatItems;
    var elem := if IsSequence(src) then ElementTypeOf(order, src) else src;
    SplatItemsHaveType(order, src, u);
    var t := if each.AnonSymbol? then elem else ApplyPath(elem, SplatEachPath(each).value);
    forall i | 0 <= i < |v.items| ensures HasType(v.items[i], t) {
      SplatElementHasType(w, env, each, SplatItems(u)[i], elem, v.items[i]);
    }
    assert forall x :: x in v.items ==> HasType(x, t);
    ListHasType(v, t);
    PlainList(v, t);
  }

  lemma {:induction false} PlainList(v: Data, t: Type)
    requires v.SeqOf? && forall x :: x in v.items ==> HasType(x, t)
    ensures HasType(v, List(t))
  {
  }

  lemma {:induction false} SplatElementHasType(w: World, env: Env, each: Expr, x: Data, t: Type, v: Data)
    requires HasType(x, t) && (each.AnonSymbol? || SplatEachPath(each).Some?)
    requires Yields(w, env.(element := Some(x)), each, v)
    ensures HasType(v, if each.AnonSymbol? then t else ApplyPath(t, SplatEachPath(each).value))
  {
    hide HasType, ApplyPath, Yields, Walk;
    ElementIs(w, env, x);
    if each.AnonSymbol? {
      assert v == x;
    } else {
      var y := SourceValue(w, env.(element := Some(x)), each, v);
      WalkHasType(x, t, SplatEachPath(each).value);
    }
  }

  lemma {:induction false} ElementIs(w: World, env: Env, x: Data)
    ensures forall y :: Yields(w, env.(element := Some(x)), AnonSymbol, y) <==> y == x
  {
  }

  lemma {:induction false} SourceValue(w: World, env: Env, e: Expr, v: Data) returns (u: Data)
    requires e.RelativeTraversal? && Yields(w, env, e, v)
    ensures Yields(w, env, e.source, u) && Reaches(u, e.steps, v)
  {
    hide Reaches;
    u :| Yields(w, env, e.source, u) && Reaches(u, e.steps, v);
  }

  lemma {:induction false} SplatItemsHaveType(order: Order, src: Type, u: Data)
    requires Lawful(order) && HasType(u, src) && (IsSequence(src) ==> ElementSafe(order, src))
    ensures AllHaveType(SplatItems(u), if IsSequence(src) then ElementTypeOf(order, src) else src)
  {
    hide ElementSafe, ElementTypeOf;
    forall i | 0 <= i < |SplatItems(u)|
      ensures HasType(SplatItems(u)[i], if IsSequence(src) then ElementTypeOf(order, src) else src)
    {
      if IsSequence(src) {
        assert IsMember(u, SplatItems(u)[i]);
        MemberHasElementType(order, src, u, SplatItems(u)[i]);
      }
    }
  }

  /** Values that have the types at their positions. */
  ghost predicate Fit(vs: seq<Data>, ts: seq<Type>) {
    |vs| == |ts| && forall i :: 0 <= i < |vs| ==> HasType(vs[i], ts[i])
  }

  lemma {:induction false} NamedValueOf(items: seq<Item>, ts: seq<Type>, k: string)
    requires |items| == |ts| && AllNamed(items)
    ensures k in NamedValues(items, ts) ==> exists i :: 0 <= i < |items| && items[i].name == Some(k)
    ensures forall i :: 0 <= i < |items| && LastNamed(items, k, i) ==> k in NamedValues(items, ts) && NamedValues(items, ts)[k] == ts[i]
    decreases |items|
  {
    if items != [] {
      var n := |items| - 1;
      NamedValueOf(items[..n], ts[..n], k);
      if k in NamedValues(items[..n], ts[..n]) {
        var i :| 0 <= i < n && items[..n][i].name == Some(k);
        assert items[i].name == Some(k);
      }
      forall i | 0 <= i < |items| && LastNamed(items, k, i) ensures k in NamedValues(items, ts) && NamedValues(items, ts)[k] == ts[i] {
        if i < n {
          assert LastNamed(items[..n], k, i);
        }
      }
    }
  }

  ghost predicate LastNamed(items: seq<Item>, k: string, i: nat)
    requires i < |items|
  {
    items[i].name == Some(k) && forall j :: i < j < |items| ==> items[j].name != Some(k)
  }

  lemma {:induction false} ObjectSound(items: seq<Item>, ts: seq<Type>, vs: seq<Data>, v: Data)
    requires |items| == |ts| && Fit(vs, ts) && v.MapOf? && BuiltFrom(items, vs, v.entries)
    requires !AllNamed(items) ==> MergeSafe(ts)
    ensures HasType(v, ObjectType(items, ts))
  {
    hide NamedValues, UnifyAll, Refines, HasType, BuiltFrom;
    if AllNamed(items) {
      var attrs := NamedValues(items, ts);
      forall k ensures (k in attrs <==> k in v.entries) && (k in attrs ==> HasType(v.entries[k], attrs[k])) {
        NamedValueOf(items, ts, k);
        NamedEntry(items, ts, vs, v.entries, k);
      }
      ObjectHasType(v, attrs);
    } else {
      forall k | k in v.entries ensures HasType(v.entries[k], UnifyAll(ts)) {
        var i := EntryOf(items, vs, v.entries, k);
        RefinesKeepsType(ts[i], UnifyAll(ts), vs[i]);
      }
      MapHasType(v, UnifyAll(ts));
    }
  }

  lemma {:induction false} EntryOf(items: seq<Item>, vs: seq<Data>, entries: map<string, Data>, k: string) returns (i: nat)
    requires |items| == |vs| && BuiltFrom(items, vs, entries) && k in entries
    ensures i < |items| && IsEntry(items, vs, k, i) && entries[k] == vs[i]
  {
    i :| 0 <= i < |items| && IsEntry(items, vs, k, i) && entries[k] == vs[i];
  }

  lemma {:induction false} NamedEntry(items: seq<Item>, ts: seq<Type>, vs: seq<Data>, entries: map<string, Data>, k: string)
    requires |items| == |ts| && Fit(vs, ts) && AllNamed(items) && BuiltFrom(items, vs, entries)
    ensures k in NamedValues(items, ts) <==> k in entries
    ensures k in entries ==> HasType(entries[k], NamedValues(items, ts)[k])
  {
    hide NamedValues, HasType, BuiltFrom;
    NamedValueOf(items, ts, k);
    if k in entries {
      var i := EntryOf(items, vs, entries, k);
      assert LastNamed(items, k, i);
    } else {
      NoSuchItem(items, vs, entries, k);
    }
  }

  lemma {:induction false} NoSuchItem(items: seq<Item>, vs: seq<Data>, entries: map<string, Data>, k: string)
    requires |items| == |vs| && BuiltFrom(items, vs, entries) && k !in entries
    ensures forall i :: 0 <= i < |items| ==> items[i].name != Some(k)
  {
  }

  lemma {:induction false} ObjectHasType(v: Data, attrs: map<string, Type>)
    requires v.MapOf? && forall k :: (k in attrs <==> k in v.entries) && (k in attrs ==> HasType(v.entries[k], attrs[k]))
    ensures HasType(v, NewObject(attrs))
  {
    assert v.entries.Keys == attrs.Keys;
  }

  lemma {:induction false} MapHasType(v: Data, e: Type)
    requires v.MapOf? && forall k :: k in v.entries ==> HasType(v.entries[k], e)
    ensures HasType(v, WrapKnown(e, t => Map(t)))
  {
  }

  lemma {:induction false} ListHasType(v: Data, e: Type)
    requires v.SeqOf? && forall x :: x in v.items ==> HasType(x, e)
    ensures HasType(v, WrapKnown(e, t => List(t)))
  {
  }

  lemma {:induction false} SetHasType(v: Data, e: Type)
    requires v.SetOf? && forall x :: x in v.items ==> HasType(x, e)
    ensures HasType(v, WrapKnown(e, t => Set(t)))
  {
  }

  // ------------------------------------------------------------------ the rules of functions

  /** Members of one argument have its element type. */
  lemma {:induction false} MembersHaveType(order: Order, t: Type, u: Data, vs: seq<Data>)
    requires Lawful(order) && ElementSafe(order, t) && HasType(u, t) && MembersOf([u], vs)
    ensures forall v :: v in vs ==> HasType(v, ElementTypeOf(order, t))
  {
    hide HasType, ElementSafe, ElementTypeOf;
    forall v | v in vs ensures HasType(v, ElementTypeOf(order, t)) {
      var i :| 0 <= i < 1 && IsMember([u][i], v);
      MemberHasElementType(order, t, u, v);
    }
  }

  /** Members of any argument have the merged element type. */
  lemma {:induction false} AnyMembersHaveType(order: Order, ts: seq<Type>, us: seq<Data>, vs: seq<Data>)
    requires Lawful(order) && Fit(us, ts) && MembersOf(us, vs)
    requires MergeSafe(ElementTypes(order, ts)) && forall i :: 0 <= i < |ts| ==> ElementSafe(order, ts[i])
    ensures forall v :: v in vs ==> HasType(v, UnifyAll(ElementTypes(order, ts)))
  {
    hide HasType, ElementSafe, ElementTypeOf, UnifyAll, Refines;
    forall v | v in vs ensures HasType(v, UnifyAll(ElementTypes(order, ts))) {
      var i :| 0 <= i < |us| && IsMember(us[i], v);
      MemberHasElementType(order, ts[i], us[i], v);
      RefinesKeepsType(ElementTypes(order, ts)[i], UnifyAll(ElementTypes(order, ts)), v);
    }
  }

  lemma {:induction false} LeafHasType(order: Order, t: Type, u: Data, x: Data)
    requires Lawful(order) && FlattenSafe(order, t) && HasType(u, t) && IsLeaf(u, x)
    ensures HasType(x, Innermost(order, t))
    decreases u
  {
    hide ElementSafe, ElementTypeOf;
    AnyValue(x);
    if IsSequence(t) && (u.SeqOf? || u.SetOf?) {
      var i :| 0 <= i < |u.items| && IsLeaf(u.items[i], x);
      assert IsMember(u, u.items[i]);
      MemberHasElementType(order, t, u, u.items[i]);
      LeafHasType(order, ElementTypeOf(order, t), u.items[i], x);
    }
  }

  lemma {:induction false} FlattenSound(order: Order, t: Type, u: Data, v: Data)
    requires Lawful(order) && FlattenSafe(order, t) && HasType(u, t) && (u.SeqOf? || u.SetOf?)
    requires v.SeqOf? && forall x :: x in v.items ==> IsLeaf(u, x)
    ensures HasType(v, FlattenType(order, t))
  {
    hide FlattenSafe, Innermost;
    if t.Dynamic? {
      AnyValue(v);
      DynamicInnermost(order);
    } else {
      forall x | x in v.items ensures HasType(x, Innermost(order, t)) {
        LeafHasType(order, t, u, x);
      }
      UnpackOnce(order, t);
      ListHasType(v, Innermost(order, t));
    }
  }

  lemma {:induction false} DynamicInnermost(order: Order)
    ensures Innermost(order, Dynamic) == Dynamic
  {
  }

  lemma {:induction false} UnpackOnce(order: Order, t: Type)
    requires IsSequence(t)
    ensures Innermost(order, t) == Innermost(order, ElementTypeOf(order, t))
  {
  }

  lemma {:induction false} MergedAttrsOf(ts: seq<Type>, k: string)
    requires AllObjects(ts)
    ensures k in MergedAttrs(ts) ==> exists i :: 0 <= i < |ts| && k in ts[i].attrs
    ensures forall i :: 0 <= i < |ts| && k in ts[i].attrs && (forall j :: i < j < |ts| ==> k !in ts[j].attrs) ==>
      k in MergedAttrs(ts) && MergedAttrs(ts)[k] == ts[i].attrs[k]
    decreases |ts|
  {
    if ts != [] {
      var n := |ts| - 1;
      MergedAttrsOf(ts[..n], k);
      forall i | 0 <= i < |ts| && k in ts[i].attrs && forall j :: i < j < |ts| ==> k !in ts[j].attrs
        ensures k in MergedAttrs(ts) && MergedAttrs(ts)[k] == ts[i].attrs[k]
      {
        if i < n {
          assert k !in ts[n].attrs;
          assert ts[..n][i] == ts[i] && forall j :: i < j < n ==> k !in ts[..n][j].attrs;
        }
      }
    }
  }

  ghost predicate AttributesFit(u: Data, t: Type) {
    u.MapOf? && t.Object? && u.entries.Keys == t.attrs.Keys && forall k :: k in t.attrs ==> HasType(u.entries[k], t.attrs[k])
  }

  lemma {:induction false} ObjectsFit(ts: seq<Type>, us: seq<Data>)
    requires AllObjects(ts) && Fit(us, ts) && forall i :: 0 <= i < |us| ==> us[i].MapOf?
    ensures forall i :: 0 <= i < |us| ==> AttributesFit(us[i], ts[i])
  {
  }

  lemma {:induction false} MergedEntry(ts: seq<Type>, us: seq<Data>, entries: map<string, Data>, k: string)
    requires AllObjects(ts) && |us| == |ts| && Merged(us, entries) && forall i :: 0 <= i < |us| ==> AttributesFit(us[i], ts[i])
    ensures (k in MergedAttrs(ts) <==> k in entries) && (k in entries ==> HasType(entries[k], MergedAttrs(ts)[k]))
  {
    hide MergedAttrs, HasType, AttributesFit, NamesOnly, FromArgument;
    MergedAttrsOf(ts, k);
    if k in entries {
      var i :| 0 <= i < |us| && FromArgument(us, k, entries[k], i);
      LastWithName(ts, us, entries[k], k, i);
    } else if k in MergedAttrs(ts) {
      var i :| 0 <= i < |ts| && k in ts[i].attrs;
      SameAttribute(us[i], ts[i], k);
      assert NamesOnly(us[i], entries.Keys);
      NameIsThere(us[i], entries.Keys, k);
    }
  }

  lemma {:induction false} NameIsThere(u: Data, names: set<string>, k: string)
    requires NamesOnly(u, names) && k in u.entries
    ensures k in names
  {
  }

  lemma {:induction false} LastWithName(ts: seq<Type>, us: seq<Data>, v: Data, k: string, i: nat)
    requires AllObjects(ts) && |us| == |ts| && i < |us| && FromArgument(us, k, v, i) && forall j :: 0 <= j < |us| ==> AttributesFit(us[j], ts[j])
    ensures k in ts[i].attrs && HasType(v, ts[i].attrs[k])
    ensures forall j :: i < j < |ts| ==> k !in ts[j].attrs
  {
    hide HasType, AttributesFit;
    SameAttribute(us[i], ts[i], k);
    forall j | i < j < |ts| ensures k !in ts[j].attrs {
      SameAttribute(us[j], ts[j], k);
    }
  }

  lemma {:induction false} SameAttribute(u: Data, t: Type, k: string)
    requires AttributesFit(u, t)
    ensures u.MapOf? && t.Object? && (k in u.entries <==> k in t.attrs) && (k in t.attrs ==> HasType(u.entries[k], t.attrs[k]))
  {
    assert k in u.entries.Keys <==> k in t.attrs.Keys;
  }

  lemma {:induction false} MergeObjectsSound(ts: seq<Type>, us: seq<Data>, v: Data)
    requires AllObjects(ts) && Fit(us, ts) && v.MapOf? && Merged(us, v.entries)
    ensures HasType(v, NewObject(MergedAttrs(ts)))
  {
    hide MergedAttrs, HasType, AttributesFit;
    ObjectsFit(ts, us);
    forall k
      ensures (k in MergedAttrs(ts) <==> k in v.entries) && (k in MergedAttrs(ts) ==> HasType(v.entries[k], MergedAttrs(ts)[k]))
    {
      MergedEntry(ts, us, v.entries, k);
    }
    ObjectHasType(v, MergedAttrs(ts));
  }

  lemma {:induction false} MergeMapsSound(order: Order, ts: seq<Type>, us: seq<Data>, v: Data)
    requires Lawful(order) && Fit(us, ts) && v.MapOf? && Merged(us, v.entries)
    requires MergeSafe(ElementTypes(order, ts)) && forall i :: 0 <= i < |ts| ==> ElementSafe(order, ts[i])
    ensures HasType(v, WrapKnown(UnifyAll(ElementTypes(order, ts)), t => Map(t)))
  {
    hide HasType, ElementSafe, ElementTypeOf, UnifyAll, MergeSafe;
    var t := UnifyAll(ElementTypes(order, ts));
    forall k | k in v.entries ensures HasType(v.entries[k], t) {
      EntryIsMember(us, v.entries, k);
      AnyMembersHaveType(order, ts, us, [v.entries[k]]);
      assert v.entries[k] in [v.entries[k]];
    }
    MapHasType(v, t);
  }

  lemma {:induction false} EntryIsMember(us: seq<Data>, entries: map<string, Data>, k: string)
    requires Merged(us, entries) && k in entries
    ensures MembersOf(us, [entries[k]])
  {
    hide NamesOnly;
    var i :| 0 <= i < |us| && FromArgument(us, k, entries[k], i);
    assert IsMember(us[i], entries[k]);
  }

  /** Functions over the elements of one argument. */
  lemma {:induction false} ElementRuleSound(order: Order, name: string, ts: seq<Type>, us: seq<Data>, v: Data)
    requires Lawful(order) && ts != [] && us != [] && HasType(us[0], ts[0]) && CallSafe(order, name, ts) && Returns(name, us, v)
    ensures name in {"one", "element"} ==> HasType(v, ElementTypeOf(order, ts[0]))
    ensures name == "toset" ==> HasType(v, WrapKnown(ElementTypeOf(order, ts[0]), t => Set(t)))
    ensures name == "tomap" ==> HasType(v, WrapKnown(ElementTypeOf(order, ts[0]), t => Map(t)))
    ensures name == "tolist" || name in LIST_FUNCTIONS ==> HasType(v, WrapKnown(ElementTypeOf(order, ts[0]), t => List(t)))
  {
    hide HasType, ElementSafe, ElementTypeOf, Refines;
    var t := ElementTypeOf(order, ts[0]);
    NullAndText(v, t);
    if name in {"one", "element"} {
      if IsMember(us[0], v) {
        MemberHasElementType(order, ts[0], us[0], v);
      }
    } else if name in {"tolist", "values", "distinct", "reverse", "slice"} {
      MembersHaveType(order, ts[0], us[0], v.items);
      ListHasType(v, t);
    } else if name == "toset" {
      MembersHaveType(order, ts[0], us[0], v.items);
      SetHasType(v, t);
    } else if name == "tomap" {
      EntriesHaveType(order, ts[0], us[0], v);
    } else if name in {"sort", "compact"} {
      TextsHaveType(t, v);
      ListHasType(v, t);
    } else {
      AnyValue(v);
    }
  }

  lemma {:induction false} TextsHaveType(t: Type, v: Data)
    requires Refines(String, t) && v.SeqOf? && forall x :: x in v.items ==> x.Text?
    ensures forall x :: x in v.items ==> HasType(x, t)
  {
    hide Refines;
    forall x | x in v.items ensures HasType(x, t) {
      RefinesKeepsType(String, t, x);
    }
  }

  lemma {:induction false} NullAndText(v: Data, t: Type)
    ensures v.Null? ==> HasType(v, t)
    ensures v.Text? ==> HasType(v, String)
  {
  }

  lemma {:induction false} EntriesHaveType(order: Order, t: Type, u: Data, v: Data)
    requires Lawful(order) && ElementSafe(order, t) && HasType(u, t) && v.MapOf? && forall k :: k in v.entries ==> IsMember(u, v.entries[k])
    ensures HasType(v, WrapKnown(ElementTypeOf(order, t), e => Map(e)))
  {
    hide HasType, ElementSafe, ElementTypeOf;
    forall k | k in v.entries ensures HasType(v.entries[k], ElementTypeOf(order, t)) {
      MemberHasElementType(order, t, u, v.entries[k]);
    }
    MapHasType(v, ElementTypeOf(order, t));
  }

  lemma {:induction false} LookupSound(order: Order, ts: seq<Type>, us: seq<Data>, v: Data)
    requires Lawful(order) && CallSafe(order, "lookup", ts) && us != [] && Fit(Arguments(LookupOf, us), ts) && Returns("lookup", us, v)
    ensures HasType(v, ElementRule(order, LookupOf, ts))
  {
    hide HasType, ElementSafe, ElementTypeOf, Refines, UnifyAll, MergeSafe;
    var t := ElementTypeOf(order, ts[0]);
    LookupOperands(us);
    if |ts| == 2 {
      PairMerge(t, ts[1]);
      if IsMember(us[0], v) {
        MemberHasElementType(order, ts[0], us[0], v);
        RefinesKeepsType(t, Unify(t, ts[1]), v);
      } else {
        RefinesKeepsType(ts[1], Unify(t, ts[1]), v);
      }
    } else {
      MemberHasElementType(order, ts[0], us[0], v);
    }
  }

  lemma {:induction false} LookupOperands(us: seq<Data>)
    requires us != []
    ensures Arguments(LookupOf, us)[0] == us[0]
    ensures |us| == 3 ==> Arguments(LookupOf, us) == [us[0], us[2]]
    ensures |us| != 3 ==> Arguments(LookupOf, us) == [us[0]]
  {
  }

  lemma {:induction false} PairMerge(a: Type, b: Type)
    ensures UnifyAll([a, b]) == Unify(a, b)
    ensures MergeSafe([a, b]) <==> Refines(a, Unify(a, b)) && Refines(b, Unify(a, b))
  {
    hide Refines;
    assert [a, b][1..] == [b] && [b][1..] == [];
    assert UnifyFrom(a, [b]) == Unify(a, b);
    assert [a, b][0] == a && [a, b][1] == b;
  }

  lemma {:induction false} FixedSound(name: string, v: Data)
    requires RuleFor(name).Fixed? && name !in CONTENT_FUNCTIONS && ReturnsKnown(name, v)
    ensures HasType(v, RuleFor(name).t)
  {
    if name in STRING_LIST_FUNCTIONS {
      assert forall i :: 0 <= i < |v.items| ==> v.items[i] in v.items;
    }
  }

  /** The rules of functions whose result depends on their arguments. */
  lemma {:induction false} RuleOf(name: string)
    requires name !in UNIFYING_FUNCTIONS && !RuleFor(name).Fixed?
    ensures RuleFor(name) ==
      if name == "one" || name == "element" then ElementOf
      else if name == "lookup" then LookupOf
      else if name == "tolist" then ToList
      else if name == "toset" then ToSet
      else if name == "tomap" then ToMap
      else if name in CONCATENATING_FUNCTIONS then Concat
      else if name == "flatten" then Flatten
      else if name in LIST_FUNCTIONS then Passthrough
      else if name == "merge" then Merge
      else if name == "zipmap" then Zipmap
      else NotModelled
  {
  }

  lemma {:induction false} ConcatSound(order: Order, name: string, ts: seq<Type>, us: seq<Data>, v: Data)
    requires Lawful(order) && name in CONCATENATING_FUNCTIONS && Fit(us, ts) && CallSafe(order, name, ts) && Returns(name, us, v)
    ensures HasType(v, CallType(order, Concat, ts))
  {
    hide HasType, ElementSafe, ElementTypeOf, Refines, UnifyAll, MergeSafe;
    if name == "concat" {
      AnyMembersHaveType(order, ts, us, v.items);
      ListHasType(v, UnifyAll(ElementTypes(order, ts)));
    } else {
      AnyValue(v);
    }
  }

  lemma {:induction false} MergeSound(order: Order, ts: seq<Type>, us: seq<Data>, v: Data)
    requires Lawful(order) && Fit(us, ts) && CallSafe(order, "merge", ts) && Returns("merge", us, v)
    ensures HasType(v, CallType(order, Merge, ts))
  {
    hide HasType, ElementSafe, ElementTypeOf, Refines, UnifyAll, MergeSafe;
    if AllObjects(ts) {
      MergeObjectsSound(ts, us, v);
    } else {
      MergeMapsSound(order, ts, us, v);
    }
  }

  lemma {:induction false} FirstArgumentSound(order: Order, name: string, rule: Rule, ts: seq<Type>, us: seq<Data>, v: Data)
    requires Lawful(order) && rule in {ElementOf, ToList, ToSet, ToMap, Flatten, Passthrough, Zipmap, LookupOf}
    requires rule == if name == "one" || name == "element" then ElementOf
      else if name == "lookup" then LookupOf
      else if name == "tolist" then ToList
      else if name == "toset" then ToSet
      else if name == "tomap" then ToMap
      else if name == "flatten" then Flatten
      else if name in LIST_FUNCTIONS then Passthrough
      else Zipmap
    requires rule.Zipmap? ==> name == "zipmap"
    requires Fit(Arguments(rule, us), ts) && CallSafe(order, name, ts) && Returns(name, us, v)
    ensures HasType(v, CallType(order, rule, ts))
  {
    hide HasType, ElementSafe, ElementTypeOf, Refines, UnifyAll, FlattenType, MergeSafe;
    match rule
    case Flatten => FlattenSound(order, ts[0], us[0], v);
    case LookupOf => LookupSound(order, ts, us, v);
    case Zipmap => EntriesHaveType(order, ts[0], us[1], v);
    case _ => ElementRuleSound(order, name, ts, us, v);
  }

  lemma {:induction false} CallSound(order: Order, name: string, ts: seq<Type>, us: seq<Data>, v: Data)
    requires Lawful(order) && name !in UNIFYING_FUNCTIONS && !RuleFor(name).Fixed?
    requires Fit(Arguments(RuleFor(name), us), ts) && CallSafe(order, name, ts) && Returns(name, us, v)
    ensures HasType(v, CallType(order, RuleFor(name), ts))
  {
    hide HasType, RuleFor, CallSafe, Returns, CallType, Lawful;
    RuleOf(name);
    if RuleFor(name).Concat? {
      ConcatSound(order, name, ts, us, v);
    } else if RuleFor(name).Merge? {
      MergeSound(order, ts, us, v);
    } else if RuleFor(name).NotModelled? {
      UnknownCall(order, ts, v);
    } else {
      FirstArgumentSound(order, name, RuleFor(name), ts, us, v);
    }
  }

  lemma {:induction false} UnknownCall(order: Order, ts: seq<Type>, v: Data)
    ensures HasType(v, CallType(order, NotModelled, ts))
  {
  }

  // ------------------------------------------------------------------ soundness

  /** The values and types that evaluation and inference are compared over. */
  ghost predicate Fits(m: Symbols, types: map<string, Type>, w: World, scope: Scope, env: Env) {
    Lawful(m.order) && DeclarationsFit(m, w) && w.locals.Keys <= types.Keys && EnvFits(scope, env.iterators)
  }

  lemma {:induction false} MeaningsAt(m: Symbols, types: map<string, Type>, scope: Scope, within: Expr, es: seq<Expr>, i: nat)
    requires Inside(es, within) && i < |es|
    ensures Meanings(m, types, scope, within, es)[i] == Meaning(m, types, scope, es[i])
    decreases |es|
  {
    hide Meaning;
    if i > 0 {
      MeaningsAt(m, types, scope, within, es[1..], i - 1);
    }
  }

  /** Every value that an expression yields is of the type that it means, where inference is safe. */
  lemma {:induction false} YieldsHasType(m: Symbols, types: map<string, Type>, w: World, scope: Scope, env: Env, e: Expr, v: Data)
    requires Fits(m, types, w, scope, env) && LocalsFit(w, types, LocalRefs(e))
    requires Safe(m, types, scope, e) && Yields(w, env, e, v)
    ensures HasType(v, Meaning(m, types, scope, e))
    decreases e, 3
  {
    hide HasType, Meaning, Meanings, Safe, NodeSafe, LocalRefs, LocalsFit, DeclarationsFit, EnvFits, Operands, ObjectType, SplatType, CallType,
      Refers, BuiltFrom, Returns, ReturnsKnown, Resolve, ElementTypeOf;
    if e.For? {
      ForHasType(m, types, w, scope, env, e, v);
    } else if e.ScopeTraversal? {
      FollowedHasType(m, types, w, scope, env, e, v);
    } else {
      NodeHasType(m, types, w, scope, env, e, v);
      NodeMeaning(m, types, scope, e);
    }
  }

  lemma {:induction false} NodeMeaning(m: Symbols, types: map<string, Type>, scope: Scope, e: Expr)
    requires !e.For? && !e.ScopeTraversal?
    ensures Meaning(m, types, scope, e) == TypeRule(m, e, Meanings(m, types, scope, e, Operands(e)))
  {
    hide TypeRule, Operands;
  }

  lemma {:induction false} FollowedHasType(m: Symbols, types: map<string, Type>, w: World, scope: Scope, env: Env, e: Expr, v: Data)
    requires e.ScopeTraversal? && Fits(m, types, w, scope, env) && LocalsFit(w, types, LocalRefs(e)) && Yields(w, env, e, v)
    ensures HasType(v, Meaning(m, types, scope, e))
  {
    hide HasType, Meaning, LocalRefs, LocalsFit, DeclarationsFit, EnvFits, Refers;
    ReferenceHasType(m, types, w, scope, env, e, v);
  }

  /** The values of an operand are of its type. */
  lemma {:induction false} OperandHasType(m: Symbols, types: map<string, Type>, w: World, scope: Scope, env: Env, e: Expr, i: nat, u: Data)
    requires !e.For? && !e.ScopeTraversal? && i < |Operands(e)|
    requires Fits(m, types, w, scope, env) && LocalsFit(w, types, LocalRefs(e))
    requires Safe(m, types, scope, e) && Yields(w, env, Operands(e)[i], u)
    ensures HasType(u, Meanings(m, types, scope, e, Operands(e))[i])
    decreases e, 0
  {
    hide HasType, Meaning, Meanings, NodeSafe, LocalRefs, Fits, Operands, Yields;
    PartNames(e, i);
    assert LocalsFit(w, types, LocalRefs(Operands(e)[i]));
    YieldsHasType(m, types, w, scope, env, Operands(e)[i], u);
    MeaningsAt(m, types, scope, e, Operands(e), i);
  }

  lemma {:induction false} ForHasType(m: Symbols, types: map<string, Type>, w: World, scope: Scope, env: Env, e: Expr, v: Data)
    requires e.For? && Fits(m, types, w, scope, env) && LocalsFit(w, types, LocalRefs(e))
    requires Safe(m, types, scope, e) && Yields(w, env, e, v)
    ensures HasType(v, Meaning(m, types, scope, e))
    decreases e, 2
  {
    hide HasType, Meaning, Meanings, LocalRefs, LocalsFit, Fits, IteratorTypes, Bindings, Yields, YieldedInside;
    var c := Meaning(m, types, scope, e.coll);
    NotGrouped(m, types, scope, e);
    ForMeaning(m, types, scope, e);
    var u := CollectionValue(w, env, e, v);
    var t := Meaning(m, types, scope + [IteratorTypes(m.order, e, c)], e.val);
    SameBindings(m.order, e, c);
    CollectionHasType(m, types, w, scope, env, e, u);
    if e.keyed {
      forall n | n in v.entries ensures HasType(v.entries[n], t) {
        BodyHasType(m, types, w, scope, env, e, u, v.entries[n]);
      }
      MapHasType(v, t);
    } else {
      forall r | r in v.items ensures HasType(r, t) {
        BodyHasType(m, types, w, scope, env, e, u, r);
      }
      ListHasType(v, t);
    }
  }

  lemma {:induction false} NotGrouped(m: Symbols, types: map<string, Type>, scope: Scope, e: Expr)
    requires e.For? && Safe(m, types, scope, e)
    ensures !e.grouped
  {
  }

  lemma {:induction false} ForMeaning(m: Symbols, types: map<string, Type>, scope: Scope, e: Expr)
    requires e.For?
    ensures var c := Meaning(m, types, scope, e.coll);
      Meaning(m, types, scope, e) == ForType(e, Meaning(m, types, scope + [Bindings(m.order, e, c)], e.val))
  {
    hide Bindings, ForType;
  }

  lemma {:induction false} CollectionValue(w: World, env: Env, e: Expr, v: Data) returns (u: Data)
    requires e.For? && !e.grouped && Yields(w, env, e, v)
    ensures Yields(w, env, e.coll, u)
    ensures if e.keyed then v.MapOf? && forall n :: n in v.entries ==> YieldedInside(w, env, e, u, v.entries[n])
            else v.SeqOf? && forall r :: r in v.items ==> YieldedInside(w, env, e, u, r)
  {
    hide YieldedInside;
    u :| Yields(w, env, e.coll, u) &&
      if !e.keyed then v.SeqOf? && forall r :: r in v.items ==> YieldedInside(w, env, e, u, r)
      else v.MapOf? && forall n :: n in v.entries ==> YieldedInside(w, env, e, u, v.entries[n]);
  }

  lemma {:induction false} SameBindings(order: Order, e: Expr, c: Type)
    requires e.For?
    ensures Bindings(order, e, c) == IteratorTypes(order, e, c)
  {
    hide ForKeyType, ElementTypeOf;
  }

  lemma {:induction false} CollectionHasType(m: Symbols, types: map<string, Type>, w: World, scope: Scope, env: Env, e: Expr, u: Data)
    requires e.For? && Fits(m, types, w, scope, env) && LocalsFit(w, types, LocalRefs(e))
    requires Safe(m, types, scope, e) && Yields(w, env, e.coll, u)
    ensures HasType(u, Meaning(m, types, scope, e.coll))
    decreases e, 0
  {
    hide HasType, Meaning, LocalRefs, Fits, Yields;
    PartNames(e, 0);
    assert LocalsFit(w, types, LocalRefs(e.coll));
    YieldsHasType(m, types, w, scope, env, e.coll, u);
  }

  /** A result of the body, given that the collection has its type. */
  lemma {:induction false} BodyHasType(m: Symbols, types: map<string, Type>, w: World, scope: Scope, env: Env, e: Expr, u: Data, r: Data)
    requires e.For? && Fits(m, types, w, scope, env) && LocalsFit(w, types, LocalRefs(e)) && Safe(m, types, scope, e)
    requires HasType(u, Meaning(m, types, scope, e.coll)) && YieldedInside(w, env, e, u, r)
    ensures HasType(r, Meaning(m, types, scope + [IteratorTypes(m.order, e, Meaning(m, types, scope, e.coll))], e.val))
    decreases e, 1
  {
    hide HasType, Meaning, LocalRefs, DeclarationsFit, Yields, IteratorTypes, Iteration;
    var c := Meaning(m, types, scope, e.coll);
    var k, x :| Visits(u, k, x) && Yields(w, env.(iterators := env.iterators + [Iteration(e.keyVar, e.valVar, k, x)]), e.val, r);
    StepFits(m.order, e, c, u, k, x);
    var b, s := IteratorTypes(m.order, e, c), Iteration(e.keyVar, e.valVar, k, x);
    EnvExtends(scope, env.iterators, b, s);
    PartNames(e, 1);
    assert LocalsFit(w, types, LocalRefs(e.val));
    YieldsHasType(m, types, w, scope + [b], env.(iterators := env.iterators + [s]), e.val, r);
  }

  lemma {:induction false} StepFits(order: Order, e: Expr, c: Type, u: Data, k: Data, x: Data)
    requires e.For? && Lawful(order) && ForSafe(order, e, c) && HasType(u, c) && Visits(u, k, x)
    ensures var b, s := IteratorTypes(order, e, c), Iteration(e.keyVar, e.valVar, k, x);
      b.Keys == s.Keys && forall n :: n in b ==> HasType(s[n], b[n])
  {
    hide HasType, ElementSafe, ElementTypeOf, ForKeyType, KeySafe;
    VisitedIsMember(u, k, x);
    MemberHasElementType(order, c, u, x);
    if e.keyVar != "" {
      KeySoundIff(c);
    }
  }

  lemma {:induction false} VisitedIsMember(u: Data, k: Data, x: Data)
    requires Visits(u, k, x)
    ensures IsMember(u, x)
  {
  }

  lemma {:induction false} EnvExtends(scope: Scope, iterators: seq<map<string, Data>>, b: map<string, Type>, s: map<string, Data>)
    requires EnvFits(scope, iterators) && b.Keys == s.Keys && forall n :: n in b ==> HasType(s[n], b[n])
    ensures EnvFits(scope + [b], iterators + [s])
  {
    hide HasType;
  }

  /** Expressions other than references and `for`. */
  lemma {:induction false} NodeHasType(m: Symbols, types: map<string, Type>, w: World, scope: Scope, env: Env, e: Expr, v: Data)
    requires !e.For? && !e.ScopeTraversal? && Fits(m, types, w, scope, env) && LocalsFit(w, types, LocalRefs(e))
    requires Safe(m, types, scope, e) && Yields(w, env, e, v)
    ensures HasType(v, TypeRule(m, e, Meanings(m, types, scope, e, Operands(e))))
    decreases e, 2
  {
    hide HasType, Meaning, Meanings, Safe, NodeSafe, LocalRefs, Fits, ObjectType, SplatType, CallType, BuiltFrom, Returns, ReturnsKnown, Unify,
      ElementTypeOf, RuleFor;
    var ts := Meanings(m, types, scope, e, Operands(e));
    AnyValue(v);
    SafeHere(m, types, scope, e);
    match e
    case TemplateWrap(_) => OperandHasType(m, types, w, scope, env, e, 0, v);
    case Parentheses(_) => OperandHasType(m, types, w, scope, env, e, 0, v);
    case ObjectConsKey(_) => OperandHasType(m, types, w, scope, env, e, 0, v);
    case Template(parts) => TemplateHasType(m, e, ts, v);
    case RelativeTraversal(x, steps) =>
      var u :| Yields(w, env, x, u) && Reaches(u, steps, v);
      OperandHasType(m, types, w, scope, env, e, 0, u);
      ReachedHasType(u, ts[0], steps, v);
    case Splat(x, each) => SplatHasType(m, types, w, scope, env, e, v);
    case Index(x) =>
      var u :| Yields(w, env, x, u) && IsMember(u, v);
      OperandHasType(m, types, w, scope, env, e, 0, u);
      IsLawful(m, types, w, scope, env);
      IndexHasType(m, e, ts, u, v);
    case Conditional(x, y) =>
      if Yields(w, env, x, v) {
        OperandHasType(m, types, w, scope, env, e, 0, v);
        BranchHasType(m, e, ts, 0, v);
      } else {
        OperandHasType(m, types, w, scope, env, e, 1, v);
        BranchHasType(m, e, ts, 1, v);
      }
    case TupleCons(es) =>
      forall i | 0 <= i < |es| ensures HasType(v.items[i], ts[i]) {
        OperandHasType(m, types, w, scope, env, e, i, v.items[i]);
      }
      TupleHasType(v, ts);
    case ObjectCons(_) => ObjectConsHasType(m, types, w, scope, env, e, v);
    case Call(_, _) => CallHasType(m, types, w, scope, env, e, v);
    case _ =>
  }

  lemma {:induction false} SafeHere(m: Symbols, types: map<string, Type>, scope: Scope, e: Expr)
    requires !e.For? && Safe(m, types, scope, e)
    ensures NodeSafe(m.order, e, Meanings(m, types, scope, e, Operands(e)))
  {
    hide NodeSafe, Operands, Meanings;
  }

  lemma {:induction false} TemplateHasType(m: Symbols, e: Expr, ts: seq<Type>, v: Data)
    requires e.Template? && |ts| == |Operands(e)| && NodeSafe(m.order, e, ts) && v.Text?
    ensures HasType(v, TypeRule(m, e, ts))
  {
    if |e.parts| == 1 {
      RefinesKeepsType(String, ts[0], v);
    }
  }

  lemma {:induction false} ReachedHasType(u: Data, t: Type, steps: seq<Step>, v: Data)
    requires HasType(u, t) && Reaches(u, steps, v)
    ensures TraversalNames(steps).Some? ==> HasType(v, ApplyPath(t, TraversalNames(steps).value))
  {
    if TraversalNames(steps).Some? {
      WalkHasType(u, t, TraversalNames(steps).value);
    }
  }

  lemma {:induction false} IndexHasType(m: Symbols, e: Expr, ts: seq<Type>, u: Data, v: Data)
    requires e.Index? && |ts| == 1 && Lawful(m.order) && NodeSafe(m.order, e, ts) && HasType(u, ts[0]) && IsMember(u, v)
    ensures HasType(v, ElementTypeOf(m.order, ts[0]))
  {
    hide HasType, ElementTypeOf;
    MemberHasElementType(m.order, ts[0], u, v);
  }

  lemma {:induction false} BranchHasType(m: Symbols, e: Expr, ts: seq<Type>, i: nat, v: Data)
    requires e.Conditional? && |ts| == 2 && i < 2 && NodeSafe(m.order, e, ts) && HasType(v, ts[i])
    ensures HasType(v, Unify(ts[0], ts[1]))
  {
    hide HasType, Refines, Unify;
    assert ts == [ts[0], ts[1]];
    PairMerge(ts[0], ts[1]);
    RefinesKeepsType(ts[i], Unify(ts[0], ts[1]), v);
  }

  lemma {:induction false} TupleHasType(v: Data, ts: seq<Type>)
    requires v.SeqOf? && Fit(v.items, ts)
    ensures HasType(v, Tuple(ts))
  {
  }

  lemma {:induction false} SplatHasType(m: Symbols, types: map<string, Type>, w: World, scope: Scope, env: Env, e: Expr, v: Data)
    requires e.Splat? && Fits(m, types, w, scope, env) && LocalsFit(w, types, LocalRefs(e))
    requires Safe(m, types, scope, e) && Yields(w, env, e, v)
    ensures HasType(v, SplatType(m.order, Meanings(m, types, scope, e, Operands(e))[0], e.each))
    decreases e, 1
  {
    hide HasType, Meaning, Meanings, Safe, LocalRefs, LocalsFit, DeclarationsFit, EnvFits, SplatType, ElementSafe, SplatItems, SplatEachPath;
    var ts := Meanings(m, types, scope, e, Operands(e));
    SafeHere(m, types, scope, e);
    var u :|
      && Yields(w, env, e.source, u)
      && |v.items| == |SplatItems(u)|
      && forall i :: 0 <= i < |v.items| ==> Yields(w, env.(element := Some(SplatItems(u)[i])), e.each, v.items[i]);
    OperandHasType(m, types, w, scope, env, e, 0, u);
    SplatSound(m.order, w, env, ts[0], e.each, u, v);
  }

  lemma {:induction false} ObjectConsHasType(m: Symbols, types: map<string, Type>, w: World, scope: Scope, env: Env, e: Expr, v: Data)
    requires e.ObjectCons? && Fits(m, types, w, scope, env) && LocalsFit(w, types, LocalRefs(e))
    requires Safe(m, types, scope, e) && Yields(w, env, e, v)
    ensures HasType(v, ObjectType(e.items, Meanings(m, types, scope, e, Operands(e))))
    decreases e, 1
  {
    hide HasType, Meaning, Meanings, Safe, LocalRefs, Fits, LocalsFit, ObjectType, BuiltFrom, MergeSafe, AllNamed, Yields;
    var items, ts := e.items, Meanings(m, types, scope, e, Operands(e));
    SafeHere(m, types, scope, e);
    var vs := ValuesOfItems(w, env, e, v);
    assert Operands(e) == ItemValues(e);
    forall i | 0 <= i < |items| ensures HasType(vs[i], ts[i]) {
      OperandHasType(m, types, w, scope, env, e, i, vs[i]);
    }
    ObjectSound(items, ts, vs, v);
  }

  lemma {:induction false} ValuesOfItems(w: World, env: Env, e: Expr, v: Data) returns (vs: seq<Data>)
    requires e.ObjectCons? && Yields(w, env, e, v)
    ensures v.MapOf? && AllYield(w, env, e, ItemValues(e), vs) && BuiltFrom(e.items, vs, v.entries)
  {
    hide BuiltFrom, AllYield, ItemValues;
    vs :| AllYield(w, env, e, ItemValues(e), vs) && BuiltFrom(e.items, vs, v.entries);
  }

  lemma {:induction false} CallHasType(m: Symbols, types: map<string, Type>, w: World, scope: Scope, env: Env, e: Expr, v: Data)
    requires e.Call? && Fits(m, types, w, scope, env) && LocalsFit(w, types, LocalRefs(e))
    requires Safe(m, types, scope, e) && Yields(w, env, e, v)
    ensures HasType(v, CallType(m.order, RuleFor(e.name), Meanings(m, types, scope, e, Operands(e))))
    decreases e, 1
  {
    hide HasType, Meaning, Meanings, Safe, LocalRefs, Fits, LocalsFit, CallType, Returns, ReturnsKnown, CallSafe, RuleFor;
    var ts, rule := Meanings(m, types, scope, e, Operands(e)), RuleFor(e.name);
    SafeHere(m, types, scope, e);
    if rule.Fixed? {
      FixedCall(m.order, e.name, ts, v);
    } else if e.name in UNIFYING_FUNCTIONS {
      UnifyingRule(e.name);
      var i :| 0 <= i < |e.args| && Yields(w, env, e.args[i], v);
      OperandHasType(m, types, w, scope, env, e, i, v);
      UnifyingCall(m.order, e.name, ts, i, v);
    } else {
      var us: seq<Data> :| AllYield(w, env, e, e.args, us) && Returns(e.name, us, v);
      ArgumentsAlign(rule, e.args, us);
      forall i | 0 <= i < |ts| ensures HasType(Arguments(rule, us)[i], ts[i]) {
        OperandHasType(m, types, w, scope, env, e, i, Arguments(rule, us)[i]);
      }
      IsLawful(m, types, w, scope, env);
      CallSound(m.order, e.name, ts, us, v);
    }
  }

  lemma {:induction false} IsLawful(m: Symbols, types: map<string, Type>, w: World, scope: Scope, env: Env)
    requires Fits(m, types, w, scope, env)
    ensures Lawful(m.order)
  {
  }

  /** Where the argument stands that a rule looks at in place `i`. */
  function Place(rule: Rule, i: nat): nat {
    if rule.Zipmap? then 1 else if rule.LookupOf? && i == 1 then 2 else i
  }

  lemma {:induction false} ArgumentsAlign(rule: Rule, args: seq<Expr>, us: seq<Data>)
    requires |us| == |args|
    ensures |Arguments(rule, us)| == |Arguments(rule, args)|
    ensures forall i :: 0 <= i < |Arguments(rule, us)| ==>
      var j := Place(rule, i); j < |us| && Arguments(rule, us)[i] == us[j] && Arguments(rule, args)[i] == args[j]
  {
  }

  lemma {:induction false} FixedCall(order: Order, name: string, ts: seq<Type>, v: Data)
    requires RuleFor(name).Fixed? && CallSafe(order, name, ts) && ReturnsKnown(name, v)
    ensures HasType(v, CallType(order, RuleFor(name), ts))
  {
    hide HasType, RuleFor, ReturnsKnown;
    FixedSound(name, v);
  }

  lemma {:induction false} UnifyingRule(name: string)
    requires name in UNIFYING_FUNCTIONS && !RuleFor(name).Fixed?
    ensures RuleFor(name) == UnifyArgs
  {
  }

  lemma {:induction false} UnifyingCall(order: Order, name: string, ts: seq<Type>, i: nat, v: Data)
    requires name in UNIFYING_FUNCTIONS && i < |ts| && CallSafe(order, name, ts) && HasType(v, ts[i])
    ensures HasType(v, CallType(order, UnifyArgs, ts))
  {
    hide HasType, Refines, UnifyAll;
    RefinesKeepsType(ts[i], UnifyAll(ts), v);
  }

  // ------------------------------------------------------------------ modules

  ghost predicate LocalsSafe(m: Symbols, types: map<string, Type>) {
    forall n :: n in m.locals ==> Safe(m, types, [], m.locals[n])
  }

  /** Values of locals have the types that solve their equations. */
  lemma {:induction false} RankedLocalsFit(m: Symbols, rank: map<string, nat>, types: map<string, Type>, w: World, bound: nat)
    requires Ranks(rank, m) && Solution(m, types) && LocalsSafe(m, types)
    requires Fits(m, types, w, [], OUTSIDE) && LocalsEvaluate(m, w)
    ensures forall n :: n in w.locals && rank[n] < bound ==> HasType(w.locals[n], types[n])
    decreases bound
  {
    hide HasType, Meaning, Safe, Yields, LocalRefs, Fits;
    if bound > 0 {
      RankedLocalsFit(m, rank, types, w, bound - 1);
      forall n | n in w.locals && rank[n] < bound ensures HasType(w.locals[n], types[n]) {
        assert LocalsFit(w, types, LocalRefs(m.locals[n])) by {
          forall d | d in LocalRefs(m.locals[n]) && d in w.locals && d in types ensures HasType(w.locals[d], types[d]) {
            assert rank[d] < rank[n];
          }
        }
        YieldsHasType(m, types, w, [], OUTSIDE, m.locals[n], w.locals[n]);
      }
    }
  }

  lemma {:induction false} LocalsHaveTypes(m: Symbols, rank: map<string, nat>, types: map<string, Type>, w: World)
    requires Ranks(rank, m) && Solution(m, types) && LocalsSafe(m, types)
    requires Fits(m, types, w, [], OUTSIDE) && LocalsEvaluate(m, w)
    ensures forall names :: LocalsFit(w, types, names)
  {
    hide HasType, Solution, LocalsSafe, Fits;
    assert w.locals.Keys <= m.locals.Keys;
    RankedLocalsFit(m, rank, types, w, Highest(rank, rank.Keys));
  }

  /**
    Type soundness of the pass. In an acyclic, capture-free module that merges without loss, whatever
    was memoised before, an expression yields only values of the type that is inferred for it, if
    variables, resources and iterators have values of their types and locals what their definitions yield.
   */
  lemma {:induction false} RunIsSound(m: Symbols, rank: map<string, nat>, types: map<string, Type>, names: set<string>,
      scope: Scope, busy: set<string>, cache: Cache, w: World, env: Env, e: Expr, v: Data)
    requires WellBehaved(m, rank, types, names) && LocalsSafe(m, types)
    requires Iterators(e) <= names && ScopeNames(scope) <= names && Below(rank, e, busy) && Coherent(cache, types)
    requires Fits(m, types, w, scope, env) && LocalsEvaluate(m, w)
    requires Safe(m, types, scope, e) && Yields(w, env, e, v)
    ensures HasType(v, Run(m, scope, busy, cache, e).t)
  {
    hide HasType, Meaning, Run, Safe, Yields, LocalRefs, Iterators, ScopeNames, Below, Coherent, CaptureFree;
    MemoisedMeaning(m, rank, types, names, scope, busy, cache, e);
    EmptyScopeFits(m, types, w, scope, env);
    LocalsHaveTypes(m, rank, types, w);
    YieldsHasType(m, types, w, scope, env, e, v);
  }

  lemma {:induction false} EmptyScopeFits(m: Symbols, types: map<string, Type>, w: World, scope: Scope, env: Env)
    requires Fits(m, types, w, scope, env)
    ensures Fits(m, types, w, [], OUTSIDE)
  {
    hide DeclarationsFit;
  }

  /** The values of outputs are of the types that are reported for them, in whatever order they are visited. */
  lemma {:induction false} OutputsAreSound(m: Symbols, types: map<string, Type>, names: set<string>, outputs: seq<string>, w: World, name: string, v: Data)
    requires Acyclic(m) && Solution(m, types) && OutputsCaptureFree(m, names) && LocalsSafe(m, types)
    requires Lawful(m.order) && DeclarationsFit(m, w) && LocalsEvaluate(m, w)
    requires name in outputs && name in m.outputs && Safe(m, types, [], m.outputs[name]) && Yields(w, OUTSIDE, m.outputs[name], v)
    ensures name in OutputsFrom(m, map[], outputs) && HasType(v, OutputsFrom(m, map[], outputs)[name].t)
  {
    hide HasType, Meaning, Run, Safe, Yields, OutputsFrom, DeclarationsFit, Lawful, LocalsSafe, OutputsCaptureFree, CaptureFree;
    var rank :| Ranks(rank, m);
    OutputsAreLexical(m, types, names, map[], outputs);
    assert w.locals.Keys <= types.Keys;
    assert Fits(m, types, w, [], OUTSIDE);
    LocalsHaveTypes(m, rank, types, w);
    YieldsHasType(m, types, w, [], OUTSIDE, m.outputs[name], v);
  }

  // ------------------------------------------------------------------ where inference is not safe

  lemma {:induction false} LiteralMeans(m: Symbols, types: map<string, Type>, scope: Scope, t: Type)
    ensures Meaning(m, types, scope, Literal(t)) == t
  {
  }

  lemma {:induction false} OneMeaning(m: Symbols, types: map<string, Type>, scope: Scope, within: Expr, e: Expr)
    requires Inside([e], within)
    ensures Meanings(m, types, scope, within, [e]) == [Meaning(m, types, scope, e)]
  {
    hide Meaning;
    assert [e][1..] == [];
  }

  const MIXED := [String, Number, Bool]

  function MixedTuple(): Expr {
    TupleCons([Literal(String), Literal(Number), Literal(Bool)])
  }

  lemma {:induction false} MixedTupleMeans(m: Symbols, types: map<string, Type>, scope: Scope)
    ensures Meaning(m, types, scope, MixedTuple()) == Tuple(MIXED)
  {
    hide Meaning, Meanings;
    var e := MixedTuple();
    forall i | 0 <= i < 3 ensures Meanings(m, types, scope, e, e.exprs)[i] == MIXED[i] {
      MeaningsAt(m, types, scope, e, e.exprs, i);
      LiteralMeans(m, types, scope, e.exprs[i].t);
    }
    assert Meanings(m, types, scope, e, e.exprs) == MIXED;
    NodeMeaning(m, types, scope, e);
  }

  /** `["a", 1, true][0]` is inferred to be a bool. */
  lemma {:induction false} MixedTupleErrs(m: Symbols, types: map<string, Type>, scope: Scope, w: World, env: Env)
    ensures Meaning(m, types, scope, Index(MixedTuple())) == Bool
    ensures Yields(w, env, Index(MixedTuple()), Text("a")) && !HasType(Text("a"), Bool)
  {
    hide Meaning, Meanings, UnifyAll, Yields, MixedTuple;
    MixedTupleMeans(m, types, scope);
    MergeLosesValues();
    NodeMeaning(m, types, scope, Index(MixedTuple()));
    OneMeaning(m, types, scope, Index(MixedTuple()), MixedTuple());
    var u := SeqOf([Text("a"), Num(1.0), Truth(true)]);
    MixedTupleYields(w, env, u);
    assert u.items[0] == Text("a");
    ElementYields(w, env, MixedTuple(), u, Text("a"));
  }

  lemma {:induction false} ElementYields(w: World, env: Env, e: Expr, u: Data, v: Data)
    requires Yields(w, env, e, u) && u.SeqOf? && v in u.items
    ensures Yields(w, env, Index(e), v)
  {
    assert IsMember(u, v);
  }

  lemma {:induction false} MixedTupleYields(w: World, env: Env, u: Data)
    requires u == SeqOf([Text("a"), Num(1.0), Truth(true)])
    ensures Yields(w, env, MixedTuple(), u)
  {
    forall i | 0 <= i < 3 ensures Yields(w, env, MixedTuple().exprs[i], u.items[i]) {}
  }

  /** `[for k, v in x : k]` over a set of numbers is inferred to be a list of strings, and yields the numbers. */
  lemma {:induction false} SetKeysErr(m: Symbols, types: map<string, Type>, scope: Scope, w: World, env: Env, coll: Expr, u: Data)
    requires Meaning(m, types, scope, coll) == Set(Number) && Yields(w, env, coll, u) && u == SetOf([Num(1.0)])
    ensures var e := For("k", "v", coll, false, false, ScopeTraversal([Root("k")]));
      && Meaning(m, types, scope, e) == List(String)
      && Yields(w, env, e, SeqOf([Num(1.0)])) && !HasType(SeqOf([Num(1.0)]), List(String))
  {
    hide Yields, Meaning;
    var e := For("k", "v", coll, false, false, ScopeTraversal([Root("k")]));
    IteratorMeans(m, types, scope, e, "k");
    KeyYields(w, env, e, u, Num(1.0));
    assert SeqOf([Num(1.0)]).items[0] == Num(1.0);
  }

  lemma {:induction false} KeyYields(w: World, env: Env, e: Expr, u: Data, v: Data)
    requires e.For? && e == For("k", "v", e.coll, false, false, ScopeTraversal([Root("k")])) && Yields(w, env, e.coll, u) && u == SetOf([v])
    ensures Yields(w, env, e, SeqOf([v]))
  {
    hide Yields, YieldedInside;
    assert u.items[0] == v && Visits(u, v, v);
    IteratorYields(w, env, "k", "v", v, v, "k");
    assert Iteration("k", "v", v, v)["k"] == v;
    InsideYields(w, env, e, u, v, v, v);
    SingleResult(w, env, e, u, v);
  }

  lemma {:induction false} InsideYields(w: World, env: Env, e: Expr, u: Data, k: Data, x: Data, r: Data)
    requires e.For? && Visits(u, k, x)
    requires Yields(w, env.(iterators := env.iterators + [Iteration(e.keyVar, e.valVar, k, x)]), e.val, r)
    ensures YieldedInside(w, env, e, u, r)
  {
    hide Yields, Visits;
  }

  lemma {:induction false} SingleResult(w: World, env: Env, e: Expr, u: Data, r: Data)
    requires e.For? && !e.keyed && Yields(w, env, e.coll, u) && YieldedInside(w, env, e, u, r)
    ensures Yields(w, env, e, SeqOf([r]))
  {
    hide YieldedInside;
  }

  /** In the body of a `for`, an iterator has the type that it is bound to. */
  lemma {:induction false} IteratorMeans(m: Symbols, types: map<string, Type>, scope: Scope, e: Expr, name: string)
    requires e.For? && name in IteratorTypes(m.order, e, Meaning(m, types, scope, e.coll)) && e.val == ScopeTraversal([Root(name)])
    ensures Meaning(m, types, scope, e)
         == ForType(e, IteratorTypes(m.order, e, Meaning(m, types, scope, e.coll))[name])
  {
    hide IteratorTypes, Bindings;
    var b := IteratorTypes(m.order, e, Meaning(m, types, scope, e.coll));
    SameBindings(m.order, e, Meaning(m, types, scope, e.coll));
    assert e.val.steps[1..] == [];
    assert SplitTraversal(e.val.steps) == Some((name, []));
    assert LookupScope(scope + [b], name) == Some(b[name]);
  }

  lemma {:induction false} IteratorYields(w: World, env: Env, keyVar: string, valVar: string, k: Data, x: Data, name: string)
    requires name in Iteration(keyVar, valVar, k, x)
    ensures Yields(w, env.(iterators := env.iterators + [Iteration(keyVar, valVar, k, x)]), ScopeTraversal([Root(name)]),
      Iteration(keyVar, valVar, k, x)[name])
  {
    hide Iteration;
    var steps := [Root(name)];
    assert steps[1..] == [];
    assert SplitTraversal(steps) == Some((name, []));
  }

  const ONE := SeqOf([Num(1.0)])

  /** Chunks are lists of lists, where the rule says a list of numbers. */
  lemma {:induction false} ChunksErr(order: Order)
    ensures HasType(ONE, List(Number)) && Returns("chunklist", [ONE], SeqOf([ONE]))
    ensures !HasType(SeqOf([ONE]), CallType(order, Passthrough, [List(Number)]))
  {
    assert ONE.items[0] == Num(1.0) && IsMember([ONE][0], Num(1.0));
    assert SeqOf([ONE]).items[0] == ONE;
  }

  /** A union is a set, where the rule says a list. */
  lemma {:induction false} UnionErrs(order: Order)
    ensures Returns("setunion", [ONE], SetOf([Num(1.0)])) && !HasType(SetOf([Num(1.0)]), CallType(order, Concat, [List(Number)]))
  {
    assert IsMember([ONE][0], Num(1.0));
    assert ElementTypes(order, [List(Number)]) == [Number];
  }

  /** Grouped results are lists, where the rule says numbers. */
  lemma {:induction false} GroupingErrs(e: Expr)
    requires e.For? && e.keyed && e.grouped
    ensures !HasType(MapOf(map["a" := ONE]), ForType(e, Number))
  {
    assert MapOf(map["a" := ONE]).entries["a"] == ONE;
  }

  /** The instances of a resource with `for_each` are a map, where the code says a list. */
  lemma {:induction false} KeyedInstancesErr(m: Symbols, addr: string, path: seq<string>, instances: map<string, Data>)
    requires addr in m.resources && m.resources[addr].repeated && !ResourceType(m, addr, path).Dynamic?
    ensures !HasType(MapOf(instances), ResourceType(m, addr, path))
  {
  }

  /** `merge` passes over null, so an attribute that the code expects may be missing. */
  lemma {:induction false} NullArgumentErrs(order: Order)
    ensures var t, u := NewObject(map["a" := String]), NewObject(map["b" := String]);
      && HasType(Null, t) && HasType(MapOf(map["b" := Text("")]), u)
      && !HasType(MapOf(map["b" := Text("")]), CallType(order, Merge, [t, u]))
  {
    var t, u := NewObject(map["a" := String]), NewObject(map["b" := String]);
    MergedAttrsOf([t, u], "a");
    assert [t, u][0] == t && "a" in t.attrs && "a" !in u.attrs;
    assert "a" !in map["b" := Text("")].Keys;
  }

  // ------------------------------------------------------------------ what a `for` is inferred to be

  /** A list of the element type for the value iterator, whatever the scope and the memo table. */
  lemma {:induction false} ForOverValues(m: Symbols, scope: Scope, busy: set<string>, cache: Cache, e: Expr, t: Type)
    requires e.For? && !e.keyed && e.valVar != "" && e.val == ScopeTraversal([Root(e.valVar)])
    requires Run(m, scope, busy, cache, e.coll).t in {List(t), Set(t), Map(t)} && !t.Dynamic?
    ensures Run(m, scope, busy, cache, e).t == List(t)
  {
    var c := Run(m, scope, busy, cache, e.coll);
    IteratorIsFound(m, scope, busy, c.cache, Bindings(m.order, e, c.t), e.valVar);
  }

  /** Numbers for the key iterator over lists and tuples, strings over maps, objects and sets. */
  lemma {:induction false} ForOverKeys(m: Symbols, scope: Scope, busy: set<string>, cache: Cache, e: Expr)
    requires e.For? && !e.keyed && e.keyVar != "" && e.keyVar != e.valVar && e.val == ScopeTraversal([Root(e.keyVar)])
    ensures var c := Run(m, scope, busy, cache, e.coll).t;
      && (c.List? || c.Tuple? ==> Run(m, scope, busy, cache, e).t == List(Number))
      && (c.Map? || c.Object? || c.Set? ==> Run(m, scope, busy, cache, e).t == List(String))
  {
    hide ElementTypeOf;
    var c := Run(m, scope, busy, cache, e.coll);
    IteratorIsFound(m, scope, busy, c.cache, Bindings(m.order, e, c.t), e.keyVar);
  }

  lemma {:induction false} IteratorIsFound(m: Symbols, scope: Scope, busy: set<string>, cache: Cache, b: map<string, Type>, name: string)
    requires name in b
    ensures Run(m, scope + [b], busy, cache, ScopeTraversal([Root(name)])) == Outcome(b[name], cache)
  {
    var steps := [Root(name)];
    assert steps[1..] == [];
    assert SplitTraversal(steps) == Some((name, []));
    assert LookupScope(scope + [b], name) == Some(b[name]);
  }
}
