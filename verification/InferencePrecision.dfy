/**
  When output inference knows: an expression over known types, merged only where they are equal, is
  inferred to a type without unknown parts and reported as exact.
 */
module InferencePrecision {
  import opened Basics
  import opened CtyTypes
  import opened Builtins
  import opened Inference
  import opened InferenceLaws
  import opened InferenceSoundness

  /** No part of the type is unknown. */
  predicate Concrete(t: Type) {
    !ContainsDynamic(t)
  }

  ghost predicate AllConcrete(ts: seq<Type>) {
    forall i :: 0 <= i < |ts| ==> Concrete(ts[i])
  }

  predicate AllEqual(ts: seq<Type>) {
    ts != [] && forall i :: 0 <= i < |ts| ==> ts[i] == ts[0]
  }

  /** A collection whose elements are all of one type. */
  predicate UniformElements(order: Order, t: Type) {
    match t
    case List(_) => true
    case Set(_) => true
    case Map(_) => true
    case Tuple(ts) => AllEqual(ts)
    case Object(attrs, _) => AllEqual(order(attrs))
    case _ => false
  }

  /** The path leads from one declared attribute or map element to the next. */
  predicate Leads(t: Type, path: seq<string>)
    decreases |path|
  {
    path == [] ||
    match t
    case Object(attrs, _) => path[0] in attrs && Leads(attrs[path[0]], path[1..])
    case Map(e) => Leads(e, path[1..])
    case _ => false
  }

  predicate FlattenKnown(order: Order, t: Type)
    decreases if t.Dynamic? then 0 else 1, t
  {
    if IsSequence(t) then
      UnifyAllIsAlternative(if t.Tuple? then t.elems else []);
      UniformElements(order, t) && FlattenKnown(order, ElementTypeOf(order, t))
    else true
  }

  predicate CallKnown(order: Order, name: string, ts: seq<Type>) {
    || RuleFor(name).Fixed?
    || (name in UNIFYING_FUNCTIONS && AllEqual(ts))
    || (name in CONCATENATING_FUNCTIONS && AllEqual(ElementTypes(order, ts)) && forall i :: 0 <= i < |ts| ==> UniformElements(order, ts[i]))
    || (name == "merge" && ts != [] && AllObjects(ts))
    || (name == "merge" && AllEqual(ElementTypes(order, ts)) && forall i :: 0 <= i < |ts| ==> UniformElements(order, ts[i]))
    || (name == "flatten" && ts != [] && IsSequence(ts[0]) && FlattenKnown(order, ts[0]))
    || (name == "lookup" && ts != [] && UniformElements(order, ts[0]) && (|ts| == 2 ==> ts[1] == ElementTypeOf(order, ts[0])))
    || ((name in {"one", "element", "tolist", "toset", "tomap", "zipmap"} || name in LIST_FUNCTIONS) && ts != [] && UniformElements(order, ts[0]))
  }

  predicate NodeKnown(order: Order, e: Expr, ts: seq<Type>)
    requires |ts| == |Operands(e)|
  {
    match e
    case Literal(t) => Concrete(t)
    case BinaryOp(t) => Concrete(t)
    case UnaryOp(t) => Concrete(t)
    case Template(_) => true
    case TemplateWrap(_) => true
    case Parentheses(_) => true
    case ObjectConsKey(_) => true
    case RelativeTraversal(_, steps) => TraversalNames(steps).Some? && Leads(ts[0], TraversalNames(steps).value)
    case Splat(_, each) =>
      && (IsSequence(ts[0]) ==> UniformElements(order, ts[0]))
      && (SplatEachPath(each).Some? ==>
           Leads(if IsSequence(ts[0]) then ElementTypeOf(order, ts[0]) else ts[0], SplatEachPath(each).value))
    case Index(_) => UniformElements(order, ts[0])
    case Conditional(_, _) => ts[0] == ts[1]
    case TupleCons(_) => true
    case ObjectCons(items) => AllNamed(items) || AllEqual(ts)
    case Call(name, _) => CallKnown(order, name, ts)
    case _ => false
  }

  /** References lead to known types, and types are merged only where they are equal, throughout `e`. */
  predicate Determined(m: Symbols, types: map<string, Type>, scope: Scope, e: Expr)
    decreases e
  {
    if e.For? then
      var c := Meaning(m, types, scope, e.coll);
      && Determined(m, types, scope, e.coll)
      && UniformElements(m.order, c)
      && Determined(m, types, scope + [IteratorTypes(m.order, e, c)], e.val)
    else if e.ScopeTraversal? then Concrete(Meaning(m, types, scope, e))
    else
      var es := Operands(e);
      && NodeKnown(m.order, e, Meanings(m, types, scope, e, es))
      && forall i :: 0 <= i < |es| ==> Determined(m, types, scope, es[i])
  }

  // ------------------------------------------------------------------ merging and elements

  lemma {:induction false} EqualMerge(ts: seq<Type>)
    requires AllEqual(ts)
    ensures UnifyAll(ts) == ts[0]
    decreases |ts|
  {
    var n := |ts| - 1;
    assert ts == ts[..n] + [ts[n]];
    UnifyAllSnoc(ts[..n], ts[n]);
    if n > 0 {
      EqualMerge(ts[..n]);
    }
  }

  lemma {:induction false} ElementIsConcrete(order: Order, t: Type)
    requires Lawful(order) && UniformElements(order, t) && Concrete(t)
    ensures Concrete(ElementTypeOf(order, t))
  {
    match t
    case Tuple(ts) => EqualMerge(ts);
    case Object(attrs, _) =>
      var ts := order(attrs);
      EqualMerge(ts);
      assert Enumerates(ts, attrs);
      EnumeratedAreValues(ts, attrs);
      assert ts[0] in Elements(ts);
    case _ =>
  }

  lemma {:induction false} PathIsConcrete(t: Type, path: seq<string>)
    requires Leads(t, path) && Concrete(t)
    ensures Concrete(ApplyPath(t, path))
    decreases |path|
  {
    if path != [] {
      match t
      case Object(attrs, _) => PathIsConcrete(attrs[path[0]], path[1..]);
      case Map(e) => PathIsConcrete(e, path[1..]);
    }
  }

  lemma {:induction false} InnermostIsConcrete(order: Order, t: Type)
    requires Lawful(order) && FlattenKnown(order, t) && Concrete(t)
    ensures Concrete(Innermost(order, t))
    decreases if t.Dynamic? then 0 else 1, t
  {
    if IsSequence(t) {
      ElementIsConcrete(order, t);
      UnifyAllIsAlternative(if t.Tuple? then t.elems else []);
      InnermostIsConcrete(order, ElementTypeOf(order, t));
    }
  }

  lemma {:induction false} MergedElementsConcrete(order: Order, ts: seq<Type>)
    requires Lawful(order) && AllConcrete(ts) && AllEqual(ElementTypes(order, ts)) && UniformElements(order, ts[0])
    ensures Concrete(UnifyAll(ElementTypes(order, ts)))
  {
    hide ElementTypeOf, UniformElements, ContainsDynamic, UnifyAll;
    EqualMerge(ElementTypes(order, ts));
    ElementIsConcrete(order, ts[0]);
  }

  lemma {:induction false} NamedValuesConcrete(items: seq<Item>, ts: seq<Type>)
    requires |items| == |ts| && AllConcrete(ts)
    ensures forall k :: k in NamedValues(items, ts) ==> Concrete(NamedValues(items, ts)[k])
    decreases |items|
  {
    hide ContainsDynamic;
    if items != [] {
      NamedValuesConcrete(items[..|items| - 1], ts[..|items| - 1]);
    }
  }

  lemma {:induction false} MergedAttrsConcrete(ts: seq<Type>)
    requires AllObjects(ts) && AllConcrete(ts)
    ensures forall k :: k in MergedAttrs(ts) ==> Concrete(MergedAttrs(ts)[k])
    decreases |ts|
  {
    if ts != [] {
      MergedAttrsConcrete(ts[..|ts| - 1]);
      var last := ts[|ts| - 1];
      assert Concrete(last) && forall k :: k in last.attrs ==> Concrete(last.attrs[k]);
    }
  }

  lemma {:induction false} WrapConcrete(t: Type)
    requires Concrete(t)
    ensures Concrete(WrapKnown(t, e => List(e))) && Concrete(WrapKnown(t, e => Set(e))) && Concrete(WrapKnown(t, e => Map(e)))
  {
  }

  // ------------------------------------------------------------------ expressions

  lemma {:induction false} FixedConcrete(order: Order, name: string, ts: seq<Type>)
    requires RuleFor(name).Fixed?
    ensures Concrete(CallType(order, RuleFor(name), ts))
  {
  }

  lemma {:induction false} CallConcrete(order: Order, name: string, ts: seq<Type>)
    requires Lawful(order) && CallKnown(order, name, ts) && AllConcrete(ts)
    ensures Concrete(CallType(order, RuleFor(name), ts))
  {
    hide RuleFor, ElementTypeOf, UniformElements, ContainsDynamic, UnifyAll, FlattenKnown, AllEqual;
    if RuleFor(name).Fixed? {
      FixedConcrete(order, name, ts);
    } else if name in UNIFYING_FUNCTIONS {
      UnifyingRule(name);
      UnifyingConcrete(order, name, ts);
    } else {
      DependentConcrete(order, name, ts);
    }
  }

  lemma {:induction false} UnifyingConcrete(order: Order, name: string, ts: seq<Type>)
    requires AllEqual(ts) && AllConcrete(ts)
    ensures Concrete(CallType(order, UnifyArgs, ts))
  {
    EqualMerge(ts);
  }

  /** Functions whose result depends on their arguments. */
  lemma {:induction false} DependentConcrete(order: Order, name: string, ts: seq<Type>)
    requires Lawful(order) && CallKnown(order, name, ts) && AllConcrete(ts) && name !in UNIFYING_FUNCTIONS && !RuleFor(name).Fixed?
    ensures Concrete(CallType(order, RuleFor(name), ts))
  {
    hide RuleFor, ElementTypeOf, UniformElements, ContainsDynamic, UnifyAll, FlattenKnown, FlattenType, AllEqual, MergedAttrs;
    RuleOf(name);
    if name in CONCATENATING_FUNCTIONS {
      ConcatConcrete(order, ts);
    } else if name == "merge" {
      MergeConcrete(order, ts);
    } else if name == "flatten" {
      FlattenConcrete(order, ts[0]);
    } else {
      ElementIsConcrete(order, ts[0]);
      WrapConcrete(ElementTypeOf(order, ts[0]));
      if |ts| == 2 {
        SameMerge(ts[1]);
      }
    }
  }

  lemma {:induction false} SameMerge(t: Type)
    ensures Unify(t, t) == t
  {
  }

  lemma {:induction false} ConcatConcrete(order: Order, ts: seq<Type>)
    requires Lawful(order) && AllConcrete(ts)
    requires AllEqual(ElementTypes(order, ts)) && forall i :: 0 <= i < |ts| ==> UniformElements(order, ts[i])
    ensures Concrete(CallType(order, Concat, ts)) && Concrete(WrapKnown(UnifyAll(ElementTypes(order, ts)), t => Map(t)))
  {
    hide ElementTypeOf, UniformElements, ContainsDynamic, UnifyAll;
    MergedElementsConcrete(order, ts);
    WrapConcrete(UnifyAll(ElementTypes(order, ts)));
  }

  lemma {:induction false} MergeConcrete(order: Order, ts: seq<Type>)
    requires Lawful(order) && AllConcrete(ts)
    requires (ts != [] && AllObjects(ts)) || (AllEqual(ElementTypes(order, ts)) && forall i :: 0 <= i < |ts| ==> UniformElements(order, ts[i]))
    ensures Concrete(CallType(order, Merge, ts))
  {
    hide ElementTypeOf, UniformElements, UnifyAll, MergedAttrs;
    if ts != [] && AllObjects(ts) {
      MergedAttrsConcrete(ts);
    } else {
      ConcatConcrete(order, ts);
    }
  }

  lemma {:induction false} FlattenConcrete(order: Order, t: Type)
    requires Lawful(order) && IsSequence(t) && FlattenKnown(order, t) && Concrete(t)
    ensures Concrete(FlattenType(order, t))
  {
    hide UniformElements, FlattenKnown, Innermost;
    InnermostIsConcrete(order, t);
    UnpackOnce(order, t);
    WrapConcrete(Innermost(order, t));
  }

  lemma {:induction false} MeaningsConcrete(m: Symbols, types: map<string, Type>, scope: Scope, e: Expr)
    requires !e.For? && !e.ScopeTraversal? && Lawful(m.order) && Determined(m, types, scope, e)
    ensures AllConcrete(Meanings(m, types, scope, e, Operands(e)))
    decreases e, 0
  {
    hide ContainsDynamic, Meaning, Meanings, NodeKnown, Operands;
    forall i | 0 <= i < |Operands(e)| ensures Concrete(Meanings(m, types, scope, e, Operands(e))[i]) {
      MeaningsAt(m, types, scope, e, Operands(e), i);
      DeterminedIsConcrete(m, types, scope, Operands(e)[i]);
    }
  }

  /** An expression over known types, merged only where they are equal, means a type without unknown parts. */
  lemma {:induction false} DeterminedIsConcrete(m: Symbols, types: map<string, Type>, scope: Scope, e: Expr)
    requires Lawful(m.order) && Determined(m, types, scope, e)
    ensures Concrete(Meaning(m, types, scope, e))
    decreases e, 1
  {
    hide ContainsDynamic, Meaning, Meanings, NodeKnown, Operands, UniformElements, Bindings, IteratorTypes, Resolve;
    if e.For? {
      var c := Meaning(m, types, scope, e.coll);
      SameBindings(m.order, e, c);
      DeterminedIsConcrete(m, types, scope + [IteratorTypes(m.order, e, c)], e.val);
      ForMeaning(m, types, scope, e);
      WrapConcrete(Meaning(m, types, scope + [IteratorTypes(m.order, e, c)], e.val));
    } else if !e.ScopeTraversal? {
      MeaningsConcrete(m, types, scope, e);
      NodeMeaning(m, types, scope, e);
      NodeConcrete(m, e, Meanings(m, types, scope, e, Operands(e)));
    }
  }

  lemma {:induction false} NodeConcrete(m: Symbols, e: Expr, ts: seq<Type>)
    requires !e.For? && !e.ScopeTraversal? && Lawful(m.order) && |ts| == |Operands(e)| && AllConcrete(ts) && NodeKnown(m.order, e, ts)
    ensures Concrete(TypeRule(m, e, ts))
  {
    hide ElementTypeOf, UniformElements, ContainsDynamic, CallKnown, CallType, ObjectType, AllEqual, RuleFor, Leads, ApplyPath;
    match e
    case RelativeTraversal(_, steps) => PathIsConcrete(ts[0], TraversalNames(steps).value);
    case Splat(_, each) => SplatConcrete(m.order, ts[0], each);
    case Index(_) => ElementIsConcrete(m.order, ts[0]);
    case Conditional(_, _) => SameMerge(ts[0]);
    case TupleCons(_) => TupleConcrete(ts);
    case ObjectCons(items) => ObjectConcrete(items, ts);
    case Call(name, _) => CallConcrete(m.order, name, ts);
    case Template(_) => StringConcrete();
    case _ =>
  }

  lemma {:induction false} StringConcrete()
    ensures Concrete(String)
  {
  }

  lemma {:induction false} TupleConcrete(ts: seq<Type>)
    requires AllConcrete(ts)
    ensures Concrete(Tuple(ts))
  {
  }

  lemma {:induction false} ObjectConcrete(items: seq<Item>, ts: seq<Type>)
    requires |items| == |ts| && AllConcrete(ts) && (AllNamed(items) || AllEqual(ts))
    ensures Concrete(ObjectType(items, ts))
  {
    hide NamedValues, AllEqual, UnifyAll;
    if AllNamed(items) {
      NamedValuesConcrete(items, ts);
    } else {
      EqualMerge(ts);
      FirstConcrete(ts);
      WrapConcrete(ts[0]);
    }
  }

  lemma {:induction false} FirstConcrete(ts: seq<Type>)
    requires AllEqual(ts) && AllConcrete(ts)
    ensures ts != [] && Concrete(ts[0])
  {
  }

  lemma {:induction false} SplatConcrete(order: Order, src: Type, each: Expr)
    requires Lawful(order) && Concrete(src) && (IsSequence(src) ==> UniformElements(order, src))
    requires SplatEachPath(each).Some? ==> Leads(if IsSequence(src) then ElementTypeOf(order, src) else src, SplatEachPath(each).value)
    ensures Concrete(SplatType(order, src, each))
  {
    hide UniformElements, ElementTypeOf, Leads, ApplyPath, SplatEachPath;
    var elem := if IsSequence(src) then ElementTypeOf(order, src) else src;
    if IsSequence(src) {
      ElementIsConcrete(order, src);
    }
    WrapConcrete(elem);
    if SplatEachPath(each).Some? {
      PathIsConcrete(elem, SplatEachPath(each).value);
      WrapConcrete(ApplyPath(elem, SplatEachPath(each).value));
    }
  }

  /** Outputs that are determined are reported as exact. */
  lemma {:induction false} DeterminedIsExact(m: Symbols, types: map<string, Type>, names: set<string>, outputs: seq<string>, name: string)
    requires Acyclic(m) && Solution(m, types) && OutputsCaptureFree(m, names) && Lawful(m.order)
    requires name in outputs && name in m.outputs && Determined(m, types, [], m.outputs[name])
    ensures name in OutputsFrom(m, map[], outputs) && OutputsFrom(m, map[], outputs)[name].confidence == Exact
  {
    hide Meaning, OutputsFrom, Determined, Lawful, OutputsCaptureFree, Solution;
    OutputsAreLexical(m, types, names, map[], outputs);
    DeterminedIsConcrete(m, types, [], m.outputs[name]);
  }
}
