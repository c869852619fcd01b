/**
  The inference pass as the code performs it: an object whose `for` scope, memo table and in-flight
  set change while expressions are visited. Every method is proved to compute what the functions of
  `Inference` say, to restore the scope and the in-flight set, and to only extend the memo table.
 */
module InferencePass {
  import opened Basics
  import opened CtyTypes
  import opened Builtins
  import opened Inference
  import opened InferenceLaws

  // ------------------------------------------------------------------ loops without state

  method ReadNames(steps: seq<Step>) returns (names: Option<seq<string>>)
    ensures names == TraversalNames(steps)
  {
    var read: seq<string> := [];
    assert steps[0..] == steps;
    assert forall rest: seq<string> :: read + rest == rest;
    for i := 0 to |steps|
      invariant TraversalNames(steps) ==
        match TraversalNames(steps[i..]) { case Some(rest) => Some(read + rest) case None => None }
    {
      assert steps[i..][1..] == steps[i + 1..];
      if !(steps[i].Attr? || steps[i].StringIndex?) {
        return None;
      }
      var tail := TraversalNames(steps[i + 1..]);
      assert tail.Some? ==> read + ([steps[i].name] + tail.value) == (read + [steps[i].name]) + tail.value;
      read := read + [steps[i].name];
    }
    assert read + [] == read;
    return Some(read);
  }

  method WalkPath(t: Type, path: seq<string>) returns (r: Type)
    ensures r == ApplyPath(t, path)
  {
    r := t;
    for i := 0 to |path|
      invariant ApplyPath(r, path[i..]) == ApplyPath(t, path)
    {
      assert path[i..][1..] == path[i + 1..];
      if r.Object? {
        if path[i] !in r.attrs {
          return Dynamic;
        }
        r := r.attrs[path[i]];
      } else if r.Map? {
        r := r.elem;
      } else {
        return Dynamic;
      }
    }
  }

  method FindInScope(scope: Scope, name: string) returns (r: Option<Type>)
    ensures r == LookupScope(scope, name)
  {
    var i := |scope|;
    assert scope[..i] == scope;
    while i > 0
      invariant 0 <= i <= |scope|
      invariant LookupScope(scope[..i], name) == LookupScope(scope, name)
    {
      i := i - 1;
      assert scope[..i + 1][..i] == scope[..i];
      if name in scope[i] {
        return Some(scope[i][name]);
      }
    }
    return None;
  }

  method FlattenElement(order: Order, src: Type) returns (elem: Type)
    ensures elem == Innermost(order, ElementTypeOf(order, src))
  {
    elem := ElementTypeOf(order, src);
    while IsSequence(elem)
      invariant Innermost(order, elem) == Innermost(order, ElementTypeOf(order, src))
      decreases if elem.Dynamic? then 0 else 1, elem
    {
      UnifyAllIsAlternative(if elem.Tuple? then elem.elems else []);
      elem := ElementTypeOf(order, elem);
    }
  }

  /** What `merge` accumulates over the arguments seen so far. */
  ghost predicate Merged(order: Order, ts: seq<Type>, elems: seq<Type>, allObjects: bool, attrs: map<string, Type>) {
    elems == ElementTypes(order, ts) && allObjects == AllObjects(ts) && (allObjects ==> attrs == MergedAttrs(ts))
  }

  lemma {:induction false} NothingMerged(order: Order)
    ensures Merged(order, [], [], true, map[])
  {
  }

  lemma {:induction false} MergedNext(order: Order, ts: seq<Type>, elems: seq<Type>, allObjects: bool, attrs: map<string, Type>, t: Type)
    requires Merged(order, ts, elems, allObjects, attrs)
    ensures Merged(order, ts + [t], elems + [ElementTypeOf(order, t)], allObjects && t.Object?, if t.Object? then attrs + t.attrs else attrs)
  {
    hide ElementTypeOf, ElementTypes, AllObjects, MergedAttrs;
    MergeOneMore(order, ts, t);
  }

  /** What is accumulated over all arguments decides the type of `merge`. */
  lemma {:induction false} MergedType(order: Order, ts: seq<Type>, elems: seq<Type>, allObjects: bool, attrs: map<string, Type>)
    requires Merged(order, ts, elems, allObjects, attrs) && ts != []
    ensures CallType(order, Merge, ts) == if allObjects then NewObject(attrs) else WrapKnown(UnifyAll(elems), t => Map(t))
  {
    hide UnifyAll, MergedAttrs;
  }

  lemma {:induction false} MergeOneMore(order: Order, ts: seq<Type>, t: Type)
    ensures ElementTypes(order, ts + [t]) == ElementTypes(order, ts) + [ElementTypeOf(order, t)]
    ensures AllObjects(ts + [t]) == (AllObjects(ts) && t.Object?)
    ensures AllObjects(ts + [t]) ==> MergedAttrs(ts + [t]) == MergedAttrs(ts) + t.attrs
  {
    var us := ts + [t];
    assert us[..|us| - 1] == ts;
    assert AllObjects(us) ==> AllObjects(ts) && us[|ts|].Object?;
  }

  lemma {:induction false} OutputsStep(m: Symbols, cache: Cache, names: seq<string>, i: nat, out: map<string, Graded>)
    requires i < |names|
    ensures out + OutputsFrom(m, cache, names[i..])
         == out[names[i] := GradeOf(m, cache, names[i])] + OutputsFrom(m, NextCache(m, cache, names[i]), names[i + 1..])
  {
    assert names[i..][1..] == names[i + 1..];
    var one := map[names[i] := GradeOf(m, cache, names[i])];
    var rest := OutputsFrom(m, NextCache(m, cache, names[i]), names[i + 1..]);
    assert out + (one + rest) == (out + one) + rest;
  }

  // ------------------------------------------------------------------ the pass

  class Pass {
    const m: Symbols
    var scope: Scope
    var localCache: Cache
    var localsInFlight: set<string>

    constructor (m: Symbols)
      ensures this.m == m && scope == [] && localCache == map[] && localsInFlight == {}
    {
      this.m := m;
      scope, localCache, localsInFlight := [], map[], {};
    }

    /** Scope and in-flight set are as they were; type and memo table are those of `Run`. */
    twostate predicate Ran(e: Expr, t: Type)
      reads this
    {
      && scope == old(scope) && localsInFlight == old(localsInFlight)
      && Outcome(t, localCache) == Run(m, old(scope), old(localsInFlight), old(localCache), e)
    }

    /** Inside a loop over `es`: the first `|types|` operands have been inferred. */
    twostate predicate RanPrefix(e: Expr, es: seq<Expr>, types: seq<Type>)
      requires Inside(es, e)
      reads this
    {
      && scope == old(scope) && localsInFlight == old(localsInFlight)
      && |types| <= |es|
      && var rest := RunAll(m, scope, localsInFlight, localCache, e, es[|types|..]);
         RunAll(m, old(scope), old(localsInFlight), old(localCache), e, es) == Outcomes(types + rest.ts, rest.cache)
    }

    method Infer(e: Expr) returns (t: Type)
      modifies this
      ensures Ran(e, t)
      ensures Grows(m, localsInFlight, old(localCache), localCache)
      decreases m.locals.Keys - localsInFlight, e, 9
    {
      CacheOnlyGrows(m, scope, localsInFlight, localCache, e);
      match e
      case Literal(type_) => t := type_;
      case Template(_) => t := InferTemplate(e);
      case TemplateWrap(x) => t := InferOperand(e, x);
      case Parentheses(x) => t := InferOperand(e, x);
      case ObjectConsKey(x) => t := InferOperand(e, x);
      case ScopeTraversal(_) => t := InferTraversal(e);
      case RelativeTraversal(_, _) => t := InferRelativeTraversal(e);
      case Splat(_, _) => t := InferSplat(e);
      case Index(_) => t := InferIndex(e);
      case Conditional(_, _) => t := InferConditional(e);
      case TupleCons(_) => t := InferTuple(e);
      case ObjectCons(_) => t := InferObject(e);
      case For(_, _, _, _, _, _) => t := InferFor(e);
      case Call(_, _) => t := InferFunctionCall(e);
      case BinaryOp(type_) => t := type_;
      case UnaryOp(type_) => t := type_;
      case AnonSymbol => t := Dynamic;
      case Unsupported => t := Dynamic;
    }

    /** Infers the only operand of `e`; the caller still has to apply the type rule of `e`. */
    method InferOperand(e: Expr, x: Expr) returns (t: Type)
      requires !e.For? && !e.ScopeTraversal? && Operands(e) == [x]
      modifies this
      ensures scope == old(scope) && localsInFlight == old(localsInFlight)
      ensures Run(m, scope, localsInFlight, old(localCache), e) == Outcome(TypeRule(m, e, [t]), localCache)
      decreases m.locals.Keys - localsInFlight, e, 0
    {
      assert Operands(e)[0] < e;
      assert [x][1..] == [];
      t := Infer(x);
      assert RunAll(m, scope, localsInFlight, localCache, e, []) == Outcomes([], localCache);
      assert [t] + [] == [t];
    }

    /** A call without arguments has no operands to infer and no known type, unless its type is fixed. */
    lemma {:induction false} NoOperands(e: Expr)
      requires e.Call? && e.args == [] && !RuleFor(e.name).Fixed?
      ensures Operands(e) == [] && TypeRule(m, e, []) == Dynamic
      ensures Run(m, scope, localsInFlight, localCache, e) == Outcome(Dynamic, localCache)
    {
      hide RuleFor;
      var none: seq<Type> := [];
      assert UnifyAll(none) == Dynamic && UnifyAll(ElementTypes(m.order, none)) == Dynamic;
    }

    method InferTemplate(e: Expr) returns (t: Type)
      requires e.Template?
      modifies this
      ensures Ran(e, t)
      decreases m.locals.Keys - localsInFlight, e, 1
    {
      if |e.parts| == 1 {
        assert Operands(e) == [e.parts[0]];
        t := InferOperand(e, e.parts[0]);
      } else {
        t := String;
      }
    }

    method InferTraversal(e: Expr) returns (t: Type)
      requires e.ScopeTraversal?
      modifies this
      ensures Ran(e, t)
      decreases m.locals.Keys - localsInFlight, e, 1
    {
      if |e.steps| == 0 || !e.steps[0].Root? {
        return Dynamic;
      }
      var root := e.steps[0].name;
      var path := ReadNames(e.steps[1..]);
      if path.None? {
        return Dynamic;
      }
      var rest := path.value;
      var bound := FindInScope(scope, root);
      if bound.Some? {
        t := WalkPath(bound.value, rest);
        return;
      }
      if root == "var" {
        if |rest| == 0 || rest[0] !in m.variables {
          return Dynamic;
        }
        t := WalkPath(m.variables[rest[0]], rest[1..]);
      } else if root == "local" {
        if |rest| == 0 {
          return Dynamic;
        }
        var local_ := InferLocal(rest[0], e);
        t := WalkPath(local_, rest[1..]);
      } else if root == "module" {
        t := Dynamic;
      } else if root in META_ARGUMENTS {
        t := Dynamic;
      } else if root == "data" {
        t := if |rest| < 2 then Dynamic else ResourceType(m, "data." + rest[0] + "." + rest[1], rest[2..]);
      } else {
        t := if |rest| == 0 then Dynamic else ResourceType(m, root + "." + rest[0], rest[1..]);
      }
    }

    method InferLocal(name: string, ghost at: Expr) returns (t: Type)
      modifies this
      ensures scope == old(scope) && localsInFlight == old(localsInFlight)
      ensures Outcome(t, localCache) == RunLocal(m, scope, localsInFlight, old(localCache), name, at)
      decreases m.locals.Keys - localsInFlight, at, 0
    {
      if name in localCache {
        return localCache[name];
      }
      if name in localsInFlight {
        return Dynamic;
      }
      if name !in m.locals {
        return Dynamic;
      }
      ghost var before := localsInFlight;
      localsInFlight := localsInFlight + {name};
      t := Infer(m.locals[name]);
      localsInFlight := localsInFlight - {name};
      assert localsInFlight == before;
      localCache := localCache[name := t];
    }

    method InferRelativeTraversal(e: Expr) returns (t: Type)
      requires e.RelativeTraversal?
      modifies this
      ensures Ran(e, t)
      decreases m.locals.Keys - localsInFlight, e, 1
    {
      var src := InferOperand(e, e.source);
      var path := ReadNames(e.steps);
      if path.None? {
        return Dynamic;
      }
      t := WalkPath(src, path.value);
    }

    method InferSplat(e: Expr) returns (t: Type)
      requires e.Splat?
      modifies this
      ensures Ran(e, t)
      decreases m.locals.Keys - localsInFlight, e, 1
    {
      var src := InferOperand(e, e.source);
      var elem := src;
      if IsSequence(elem) {
        elem := ElementTypeOf(m.order, elem);
      }
      var path := SplatEachPath(e.each);
      if path.None? {
        return List(elem);
      }
      var inner := WalkPath(elem, path.value);
      t := if inner.Dynamic? then Dynamic else List(inner);
    }

    method InferIndex(e: Expr) returns (t: Type)
      requires e.Index?
      modifies this
      ensures Ran(e, t)
      decreases m.locals.Keys - localsInFlight, e, 1
    {
      var src := InferOperand(e, e.collection);
      match src
      case List(elem) => t := elem;
      case Set(elem) => t := elem;
      case Map(elem) => t := elem;
      case Tuple(types) =>
        if |types| == 0 {
          return Dynamic;
        }
        t := UnifyTypes(types);
      case Object(attrs, _) => t := UnifyTypes(m.order(attrs));
      case _ => t := Dynamic;
    }

    method InferConditional(e: Expr) returns (t: Type)
      requires e.Conditional?
      modifies this
      ensures Ran(e, t)
      decreases m.locals.Keys - localsInFlight, e, 1
    {
      var types := InferAll(e, Operands(e));
      t := Unify(types[0], types[1]);
    }

    /** Infers the operands `es` from left to right. */
    method InferAll(e: Expr, es: seq<Expr>) returns (types: seq<Type>)
      requires Inside(es, e)
      modifies this
      ensures scope == old(scope) && localsInFlight == old(localsInFlight)
      ensures Outcomes(types, localCache) == RunAll(m, scope, localsInFlight, old(localCache), e, es)
      decreases m.locals.Keys - localsInFlight, e, 0
    {
      types := [];
      assert es[0..] == es;
      for i := 0 to |es|
        invariant |types| == i && RanPrefix(e, es, types)
      {
        types := InferNext(e, es, types);
      }
      assert types + [] == types;
    }

    /** One loop iteration: infers the next operand after those in `types`. */
    method InferNext(e: Expr, es: seq<Expr>, types: seq<Type>) returns (more: seq<Type>)
      requires Inside(es, e) && |types| < |es|
      modifies this
      ensures scope == old(scope) && localsInFlight == old(localsInFlight)
      ensures |more| == |types| + 1 && more[..|types|] == types
      ensures var rest := RunAll(m, scope, localsInFlight, localCache, e, es[|types| + 1..]);
              var all := RunAll(m, scope, localsInFlight, old(localCache), e, es[|types|..]);
              types + all.ts == more + rest.ts && all.cache == rest.cache
      decreases m.locals.Keys - localsInFlight, e, 0, 0
    {
      assert es[|types|..][1..] == es[|types| + 1..];
      var t := Infer(es[|types|]);
      more := types + [t];
    }

    method InferTuple(e: Expr) returns (t: Type)
      requires e.TupleCons?
      modifies this
      ensures Ran(e, t)
      decreases m.locals.Keys - localsInFlight, e, 1
    {
      var types := InferAll(e, e.exprs);
      t := Tuple(types);
    }

    /** A key without a static name turns the object into a map of the unified value types. */
    method InferObject(e: Expr) returns (t: Type)
      requires e.ObjectCons?
      modifies this
      ensures Ran(e, t)
      decreases m.locals.Keys - localsInFlight, e, 1
    {
      hide RuleFor, UnifyAll, Resolve, CallType, SplatType;
      var items, values := e.items, Operands(e);
      var attrs: map<string, Type> := map[];
      var types: seq<Type> := [];
      var staticKeys := true;
      assert values[0..] == values;
      for i := 0 to |items|
        invariant |types| == i && RanPrefix(e, values, types)
        invariant staticKeys == AllNamed(items[..i])
        invariant attrs == NamedValues(items[..i], types)
      {
        ghost var before := types;
        types := InferNext(e, values, types);
        assert items[..i + 1][..i] == items[..i];
        assert types[..i] == before;
        assert AllNamed(items[..i + 1]) == (AllNamed(items[..i]) && items[i].name.Some?);
        if items[i].name.None? {
          staticKeys := false;
        } else {
          attrs := attrs[items[i].name.value := types[i]];
        }
      }
      assert types + [] == types;
      assert items[..|items|] == items;
      if !staticKeys {
        var unified := UnifyTypes(types);
        t := if unified.Dynamic? then Dynamic else Map(unified);
      } else {
        t := NewObject(attrs);
      }
    }

    method InferFor(e: Expr) returns (t: Type)
      requires e.For?
      modifies this
      ensures Ran(e, t)
      decreases m.locals.Keys - localsInFlight, e, 1
    {
      var coll := Infer(e.coll);
      var bindings: map<string, Type> := map[];
      if e.keyVar != "" {
        bindings := bindings[e.keyVar := ForKeyType(coll)];
      }
      if e.valVar != "" {
        bindings := bindings[e.valVar := ElementTypeOf(m.order, coll)];
      }
      assert bindings == Bindings(m.order, e, coll);
      ghost var outer := scope;
      scope := scope + [bindings];
      var val := Infer(e.val);
      scope := scope[..|scope| - 1];
      assert scope == outer;
      if val.Dynamic? {
        return Dynamic;
      }
      t := if e.keyed then Map(val) else List(val);
    }

    // ---------------------------------------------------------------- built-in functions

    method InferFunctionCall(e: Expr) returns (t: Type)
      requires e.Call?
      modifies this
      ensures Ran(e, t)
      decreases m.locals.Keys - localsInFlight, e, 4
    {
      match RuleFor(e.name)
      case Fixed(type_) => t := type_;
      case UnifyArgs => t := UnifyArguments(e);
      case ElementOf => t := InferElementOfFirstArg(e);
      case LookupOf => t := InferElementOfFirstArg(e);
      case ToList => t := InferConversion(e);
      case ToSet => t := InferConversion(e);
      case ToMap => t := InferConversion(e);
      case Concat => t := InferConcat(e);
      case Flatten => t := InferFlatten(e);
      case Passthrough => t := InferConversion(e);
      case Merge => t := InferMerge(e);
      case Zipmap => t := InferConversion(e);
      case NotModelled => t := Dynamic;
    }

    method UnifyArguments(e: Expr) returns (acc: Type)
      requires e.Call? && RuleFor(e.name).UnifyArgs?
      modifies this
      ensures Ran(e, acc)
      decreases m.locals.Keys - localsInFlight, e, 1
    {
      hide RuleFor, Resolve, ElementRule, SplatType, ObjectType;
      if |e.args| == 0 {
        NoOperands(e);
        return Dynamic;
      }
      assert e.args[0..] == e.args;
      var types := InferNext(e, e.args, []);
      acc := types[0];
      assert types == [acc];
      for i := 1 to |e.args|
        invariant |types| == i && RanPrefix(e, e.args, types)
        invariant acc == UnifyAll(types)
      {
        ghost var before := types;
        types := InferNext(e, e.args, types);
        assert types == before + [types[i]];
        UnifyAllSnoc(before, types[i]);
        acc := Unify(acc, types[i]);
      }
      assert types + [] == types;
    }

    /** The conversions and list functions wrap the element type of one argument: the second for `zipmap`, else the first. */
    method InferConversion(e: Expr) returns (t: Type)
      requires e.Call?
      requires RuleFor(e.name) in {ToList, ToSet, ToMap, Passthrough, Zipmap}
      modifies this
      ensures Ran(e, t)
      decreases m.locals.Keys - localsInFlight, e, 1
    {
      var rule := RuleFor(e.name);
      if |e.args| == 0 || (rule.Zipmap? && |e.args| < 2) {
        return Dynamic;
      }
      var src := InferOperand(e, e.args[if rule.Zipmap? then 1 else 0]);
      var elem := ElementTypeOf(m.order, src);
      if elem.Dynamic? {
        return Dynamic;
      }
      match rule
      case ToSet => t := Set(elem);
      case ToMap => t := Map(elem);
      case Zipmap => t := Map(elem);
      case _ => t := List(elem);
    }

    method InferConcat(e: Expr) returns (t: Type)
      requires e.Call? && RuleFor(e.name).Concat?
      modifies this
      ensures Ran(e, t)
      decreases m.locals.Keys - localsInFlight, e, 1
    {
      hide RuleFor, ElementTypeOf, UnifyFrom, Resolve, FlattenType, ElementRule, SplatType, ObjectType;
      if |e.args| == 0 {
        NoOperands(e);
        return Dynamic;
      }
      var types: seq<Type>, elems: seq<Type> := [], [];
      assert e.args[0..] == e.args;
      for i := 0 to |e.args|
        invariant |types| == i && RanPrefix(e, e.args, types)
        invariant elems == ElementTypes(m.order, types)
      {
        types := InferNext(e, e.args, types);
        elems := elems + [ElementTypeOf(m.order, types[i])];
      }
      assert types + [] == types;
      var unified := UnifyTypes(elems);
      t := if unified.Dynamic? then Dynamic else List(unified);
    }

    method InferFlatten(e: Expr) returns (t: Type)
      requires e.Call? && RuleFor(e.name).Flatten?
      modifies this
      ensures Ran(e, t)
      decreases m.locals.Keys - localsInFlight, e, 1
    {
      if |e.args| == 0 {
        return Dynamic;
      }
      var src := InferOperand(e, e.args[0]);
      var elem := FlattenElement(m.order, src);
      t := if elem.Dynamic? then Dynamic else List(elem);
    }

    method InferElementOfFirstArg(e: Expr) returns (acc: Type)
      requires e.Call? && (RuleFor(e.name).ElementOf? || RuleFor(e.name).LookupOf?)
      modifies this
      ensures Ran(e, acc)
      decreases m.locals.Keys - localsInFlight, e, 1
    {
      hide RuleFor, Resolve, SplatType, ObjectType, UnifyAll;
      if |e.args| == 0 {
        NoOperands(e);
        return Dynamic;
      }
      var used := Operands(e);
      assert used[0..] == used;
      var types := InferNext(e, used, []);
      acc := ElementTypeOf(m.order, types[0]);
      if RuleFor(e.name).LookupOf? && |e.args| == 3 {
        types := InferNext(e, used, types);
        acc := Unify(acc, types[1]);
      }
      assert types + [] == types;
    }

    method InferMerge(e: Expr) returns (t: Type)
      requires e.Call? && RuleFor(e.name).Merge?
      modifies this
      ensures Ran(e, t)
      decreases m.locals.Keys - localsInFlight, e, 1
    {
      hide RuleFor, ElementTypeOf, UnifyFrom, Resolve, FlattenType, ElementRule, SplatType, ObjectType, Merged, MergedAttrs;
      if |e.args| == 0 {
        NoOperands(e);
        return Dynamic;
      }
      NothingMerged(m.order);
      var attrs: map<string, Type> := map[];
      var types: seq<Type>, elems: seq<Type> := [], [];
      var allObjects := true;
      assert e.args[0..] == e.args;
      for i := 0 to |e.args|
        invariant |types| == i && RanPrefix(e, e.args, types)
        invariant Merged(m.order, types, elems, allObjects, attrs)
      {
        ghost var before := types;
        types := InferNext(e, e.args, types);
        assert types == before + [types[i]];
        MergedNext(m.order, before, elems, allObjects, attrs, types[i]);
        elems := elems + [ElementTypeOf(m.order, types[i])];
        if !types[i].Object? {
          allObjects := false;
        } else {
          attrs := attrs + types[i].attrs;
        }
      }
      assert types + [] == types;
      MergedType(m.order, types, elems, allObjects, attrs);
      if allObjects {
        return NewObject(attrs);
      }
      var unified := UnifyTypes(elems);
      t := if unified.Dynamic? then Dynamic else Map(unified);
    }
  }

  /** Classifies the outputs `names` of a module in one pass with a shared memo table. */
  method InferOutputs(m: Symbols, names: seq<string>) returns (out: map<string, Graded>)
    ensures out == OutputsFrom(m, map[], names)
  {
    out := map[];
    var pass := new Pass(m);
    assert names[0..] == names;
    for i := 0 to |names|
      invariant fresh(pass) && pass.m == m && pass.scope == [] && pass.localsInFlight == {}
      invariant out + OutputsFrom(m, pass.localCache, names[i..]) == OutputsFrom(m, map[], names)
    {
      OutputsStep(m, pass.localCache, names, i, out);
      if names[i] !in m.outputs {
        out := out[names[i] := Graded(Dynamic, Unknown)];
      } else {
        var t := pass.Infer(m.outputs[names[i]]);
        out := out[names[i] := Grade(t)];
      }
    }
    assert out + map[] == out;
  }
}
