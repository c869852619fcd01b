/**
  The type language of output inference and the rules that merge alternative types.

  An object carries the set of its optional attributes because two object types are equal only
  when they agree on it. The Go code walks an object's attributes in map order, which is not
  specified, so that enumeration is a parameter (`Order`) wherever it can be observed.
 */
module CtyTypes {
  import opened Basics

  datatype Type =
    | Dynamic
    | Bool
    | Number
    | String
    | List(elem: Type)
    | Set(elem: Type)
    | Map(elem: Type)
    | Tuple(elems: seq<Type>)
    | Object(attrs: map<string, Type>, optional: set<string>)

  /** The order in which one pass over an object's attribute types delivers them. */
  type Order = map<string, Type> -> seq<Type>

  /** The types `ts` are those of `attrs`, each attribute visited exactly once. */
  ghost predicate Enumerates(ts: seq<Type>, attrs: map<string, Type>) {
    exists names: seq<string> ::
      && Distinct(names)
      && Elements(names) == attrs.Keys
      && |ts| == |names|
      && forall i :: 0 <= i < |names| ==> names[i] in attrs && ts[i] == attrs[names[i]]
  }

  ghost predicate Lawful(order: Order) {
    forall attrs: map<string, Type> :: Enumerates(order(attrs), attrs)
  }

  function NewObject(attrs: map<string, Type>): Type {
    Object(attrs, {})
  }

  predicate IsSequence(t: Type) {
    t.List? || t.Set? || t.Tuple?
  }

  // ------------------------------------------------------------------ merging alternatives

  function Unify(a: Type, b: Type): Type {
    if a == b then a
    else if a.Dynamic? then b
    else if b.Dynamic? then a
    else Dynamic
  }

  function UnifyFrom(acc: Type, ts: seq<Type>): Type
    decreases |ts|
  {
    if ts == [] then acc else UnifyFrom(Unify(acc, ts[0]), ts[1..])
  }

  function UnifyAll(ts: seq<Type>): Type {
    if ts == [] then Dynamic else UnifyFrom(ts[0], ts[1..])
  }

  method UnifyTypes(types: seq<Type>) returns (acc: Type)
    ensures acc == UnifyAll(types)
  {
    if |types| == 0 {
      return Dynamic;
    }
    acc := types[0];
    for i := 1 to |types|
      invariant UnifyFrom(acc, types[i..]) == UnifyAll(types)
    {
      acc := Unify(acc, types[i]);
    }
  }

  /** The element type of a collection, and `Dynamic` for anything else. */
  function ElementTypeOf(order: Order, t: Type): Type {
    match t
    case List(e) => e
    case Set(e) => e
    case Map(e) => e
    case Tuple(ts) => UnifyAll(ts)
    case Object(attrs, _) => UnifyAll(order(attrs))
    case _ => Dynamic
  }

  /** The key type of an iteration. */
  function ForKeyType(t: Type): Type {
    match t
    case List(_) => Number
    case Tuple(_) => Number
    case Map(_) => String
    case Object(_, _) => String
    case Set(_) => String
    case _ => Dynamic
  }

  predicate ContainsDynamic(t: Type) {
    match t
    case Dynamic => true
    case List(e) => ContainsDynamic(e)
    case Set(e) => ContainsDynamic(e)
    case Map(e) => ContainsDynamic(e)
    case Tuple(ts) => exists i :: 0 <= i < |ts| && ContainsDynamic(ts[i])
    case Object(attrs, _) => exists n :: n in attrs && ContainsDynamic(attrs[n])
    case _ => false
  }

  // ------------------------------------------------------------------ laws of the left fold

  lemma {:induction false} UnifyFromAppend(acc: Type, ts: seq<Type>, us: seq<Type>)
    ensures UnifyFrom(acc, ts + us) == UnifyFrom(UnifyFrom(acc, ts), us)
    decreases |ts|
  {
    if ts == [] {
      assert ts + us == us;
    } else {
      assert (ts + us)[1..] == ts[1..] + us;
      UnifyFromAppend(Unify(acc, ts[0]), ts[1..], us);
    }
  }

  /** Folding may start from `Dynamic`, because `Dynamic` is neutral. */
  lemma {:induction false} UnifyAllFromDynamic(ts: seq<Type>)
    ensures UnifyAll(ts) == UnifyFrom(Dynamic, ts)
  {
  }

  lemma {:induction false} UnifyAllSnoc(ts: seq<Type>, t: Type)
    ensures UnifyAll(ts + [t]) == Unify(UnifyAll(ts), t)
  {
    UnifyAllFromDynamic(ts + [t]);
    UnifyAllFromDynamic(ts);
    UnifyFromAppend(Dynamic, ts, [t]);
  }

  /** The alternatives whose type is known, with their multiplicities. */
  ghost function Known(ts: seq<Type>): multiset<Type> {
    multiset(ts)[Dynamic := 0]
  }

  lemma {:induction false} KnownSnoc(ts: seq<Type>, t: Type)
    ensures Known(ts + [t]) == if t.Dynamic? then Known(ts) else Known(ts) + multiset{t}
  {
  }

  /** Merging invents nothing: the result is one of the alternatives or unknown. */
  lemma {:induction false} UnifyAllIsAlternative(ts: seq<Type>)
    ensures UnifyAll(ts).Dynamic? || UnifyAll(ts) in Known(ts)
    decreases |ts|
  {
    if ts != [] {
      var n := |ts| - 1;
      assert ts == ts[..n] + [ts[n]];
      UnifyAllSnoc(ts[..n], ts[n]);
      KnownSnoc(ts[..n], ts[n]);
      UnifyAllIsAlternative(ts[..n]);
    }
  }

  ghost predicate Uniform(ts: seq<Type>) {
    forall a, b :: a in Known(ts) && b in Known(ts) ==> a == b
  }

  ghost predicate NoneRepeated(m: multiset<Type>) {
    forall a :: m[a] <= 1
  }

  /** No known alternative occurs twice, and there is an even number of them. */
  ghost predicate CancelsInPairs(ts: seq<Type>) {
    NoneRepeated(Known(ts)) && |Known(ts)| % 2 == 0
  }

  /** Agreeing alternatives keep their common type under every order. */
  lemma {:induction false} UniformKeepsType(ts: seq<Type>, t: Type)
    requires forall a :: a in Known(ts) ==> a == t
    ensures UnifyAll(ts) == if |Known(ts)| == 0 then Dynamic else t
    decreases |ts|
  {
    if ts == [] {
      assert Known(ts) == multiset{};
    } else {
      var n := |ts| - 1;
      assert ts == ts[..n] + [ts[n]];
      UnifyAllSnoc(ts[..n], ts[n]);
      KnownSnoc(ts[..n], ts[n]);
      assert !ts[n].Dynamic? ==> ts[n] in Known(ts);
      assert forall a :: a in Known(ts[..n]) ==> a in Known(ts);
      UniformKeepsType(ts[..n], t);
    }
  }

  /** Pairwise different alternatives cancel two by two: only the last of an odd number survives. */
  lemma {:induction false} DistinctCancel(ts: seq<Type>)
    requires NoneRepeated(Known(ts))
    ensures UnifyAll(ts).Dynamic? <==> |Known(ts)| % 2 == 0
    decreases |ts|
  {
    if ts == [] {
      assert Known(ts) == multiset{};
    } else {
      hide UnifyAll, Known;
      var n := |ts| - 1;
      var front := ts[..n];
      assert ts == front + [ts[n]];
      UnifyAllSnoc(front, ts[n]);
      KnownSnoc(front, ts[n]);
      forall a ensures Known(front)[a] <= 1 {
        assert Known(front)[a] <= Known(ts)[a];
      }
      DistinctCancel(front);
      UnifyAllIsAlternative(front);
      assert !ts[n].Dynamic? ==> ts[n] !in Known(front) by {
        if !ts[n].Dynamic? { assert Known(ts)[ts[n]] == Known(front)[ts[n]] + 1; }
      }
    }
  }

  /** Whatever order the alternatives come in, the merged type is the same. */
  ghost predicate OrderIndependent(ts: seq<Type>) {
    forall p: seq<Type> :: multiset(p) == multiset(ts) ==> UnifyAll(p) == UnifyAll(ts)
  }

  /** A different order of the same alternatives with a different merged type. */
  ghost predicate Disagrees(p: seq<Type>, q: seq<Type>, ts: seq<Type>) {
    multiset(p) == multiset(q) == multiset(ts) && UnifyAll(p) != UnifyAll(q)
  }

  lemma {:induction false} RepeatedAndOtherDisagree(ts: seq<Type>, a: Type, b: Type)
    returns (p: seq<Type>, q: seq<Type>)
    requires Known(ts)[a] >= 2 && b in Known(ts) && a != b
    ensures Disagrees(p, q, ts)
  {
    RepeatedAndOtherInside(ts, a, b);
    var rest := MoveToEnd(ts, [a, b, a]);
    ReorderEnd(rest, [a, b, a], [a, a, b]);
    ReorderEnd(rest, [a, b, a], [b, a, a]);
    FoldThree(rest, a, a, b);
    FoldThree(rest, a, b, a);
    FoldThree(rest, b, a, a);
    ThreeFoldsDiffer(UnifyAll(rest), a, b);
    p := rest + [a, b, a];
    q := if UnifyAll(rest + [a, a, b]) != UnifyAll(p) then rest + [a, a, b] else rest + [b, a, a];
  }

  lemma {:induction false} RepeatedAndOtherInside(ts: seq<Type>, a: Type, b: Type)
    requires Known(ts)[a] >= 2 && b in Known(ts) && a != b
    ensures multiset([a, b, a]) <= multiset(ts)
  {
    assert multiset([a, b, a]) == multiset{a, a, b};
    assert multiset(ts)[a] >= 2 && multiset(ts)[b] >= 1;
  }

  lemma {:induction false} TwoInside(ts: seq<Type>, a: Type, b: Type)
    requires a in Known(ts) && b in Known(ts) && a != b
    ensures multiset([a, b]) <= multiset(ts)
  {
    assert multiset([a, b]) == multiset{a, b};
    assert multiset(ts)[a] >= 1 && multiset(ts)[b] >= 1;
  }

  lemma {:induction false} ThreeFoldsDiffer(s: Type, a: Type, b: Type)
    requires !a.Dynamic? && !b.Dynamic? && a != b
    ensures !(Unify(Unify(Unify(s, a), a), b) == Unify(Unify(Unify(s, a), b), a) == Unify(Unify(Unify(s, b), a), a))
  {
  }

  lemma {:induction false} FoldThree(rest: seq<Type>, x: Type, y: Type, z: Type)
    ensures UnifyAll(rest + [x, y, z]) == Unify(Unify(Unify(UnifyAll(rest), x), y), z)
  {
    assert rest + [x, y, z] == (rest + [x, y]) + [z];
    assert rest + [x, y] == (rest + [x]) + [y];
    UnifyAllSnoc(rest + [x, y], z);
    UnifyAllSnoc(rest + [x], y);
    UnifyAllSnoc(rest, x);
  }

  lemma {:induction false} LastOfOddSurvives(front: seq<Type>, t: Type)
    requires NoneRepeated(Known(front + [t]))
    requires !t.Dynamic? && |Known(front + [t])| % 2 == 1
    ensures UnifyAll(front + [t]) == t
  {
    KnownSnoc(front, t);
    forall x ensures Known(front)[x] <= 1 {
      assert Known(front)[x] <= Known(front + [t])[x];
    }
    DistinctCancel(front);
    UnifyAllSnoc(front, t);
  }

  lemma {:induction false} OddDistinctDisagree(ts: seq<Type>, a: Type, b: Type)
    returns (p: seq<Type>, q: seq<Type>)
    requires NoneRepeated(Known(ts))
    requires a in Known(ts) && b in Known(ts) && a != b
    requires |Known(ts)| % 2 == 1
    ensures Disagrees(p, q, ts)
  {
    TwoInside(ts, a, b);
    var rest := MoveToEnd(ts, [a, b]);
    ReorderEnd(rest, [a, b], [b, a]);
    p, q := (rest + [a]) + [b], (rest + [b]) + [a];
    assert p == rest + [a, b] && q == rest + [b, a];
    LastOfOddSurvives(rest + [a], b);
    LastOfOddSurvives(rest + [b], a);
  }

  /**
    The fold that merges alternatives is not associative, so its answer may depend on map order.
    It does not exactly when the known alternatives all agree, or all differ and are even in number.
   */
  lemma {:induction false} OrderIndependentIff(ts: seq<Type>)
    ensures OrderIndependent(ts) <==> Uniform(ts) || CancelsInPairs(ts)
  {
    if Uniform(ts) || CancelsInPairs(ts) {
      forall p: seq<Type> | multiset(p) == multiset(ts) ensures UnifyAll(p) == UnifyAll(ts) {
        assert Known(p) == Known(ts);
        if CancelsInPairs(ts) {
          DistinctCancel(p);
          DistinctCancel(ts);
        } else if |Known(ts)| > 0 {
          var t :| t in Known(ts);
          UniformKeepsType(p, t);
          UniformKeepsType(ts, t);
        } else {
          UniformKeepsType(p, Dynamic);
          UniformKeepsType(ts, Dynamic);
        }
      }
    } else {
      var a, b :| a in Known(ts) && b in Known(ts) && a != b;
      var p, q;
      if c :| Known(ts)[c] >= 2 {
        var other := if c == a then b else a;
        p, q := RepeatedAndOtherDisagree(ts, c, other);
      } else {
        p, q := OddDistinctDisagree(ts, a, b);
      }
      assert !(UnifyAll(p) == UnifyAll(ts) && UnifyAll(q) == UnifyAll(ts));
    }
  }

  // ------------------------------------------------------------------ element types

  /** The types directly inside `t`. */
  ghost function Components(t: Type): set<Type> {
    match t
    case List(e) => {e}
    case Set(e) => {e}
    case Map(e) => {e}
    case Tuple(ts) => set x | x in ts
    case Object(attrs, _) => attrs.Values
    case _ => {}
  }

  lemma {:induction false} EnumeratedAreValues(ts: seq<Type>, attrs: map<string, Type>)
    requires Enumerates(ts, attrs)
    ensures Elements(ts) == attrs.Values
  {
    var names :| Distinct(names) && Elements(names) == attrs.Keys && |ts| == |names|
      && forall i :: 0 <= i < |names| ==> names[i] in attrs && ts[i] == attrs[names[i]];
    NamedTypes(names, ts, attrs);
  }

  lemma {:induction false} NamedTypes(names: seq<string>, ts: seq<Type>, attrs: map<string, Type>)
    requires Elements(names) == attrs.Keys && |ts| == |names|
    requires forall i :: 0 <= i < |names| ==> names[i] in attrs && ts[i] == attrs[names[i]]
    ensures Elements(ts) == attrs.Values
  {
    forall v | v in attrs.Values ensures v in Elements(ts) {
      var n :| n in attrs && attrs[n] == v;
      assert n in Elements(names);
      var i :| 0 <= i < |names| && names[i] == n;
      assert ts[i] == v;
    }
    forall v | v in Elements(ts) ensures v in attrs.Values {
      var i :| 0 <= i < |ts| && ts[i] == v;
      assert names[i] in attrs.Keys;
    }
  }

  /** An element type is unknown or sits directly inside its collection, so it is strictly smaller. */
  lemma {:induction false} ElementIsComponent(order: Order, t: Type)
    requires Lawful(order)
    ensures var e := ElementTypeOf(order, t); e.Dynamic? || (e in Components(t) && e < t)
  {
    match t
    case Tuple(ts) =>
      UnifyAllIsAlternative(ts);
    case Object(attrs, _) =>
      UnifyAllIsAlternative(order(attrs));
      assert Enumerates(order(attrs), attrs);
      EnumeratedAreValues(order(attrs), attrs);
    case _ =>
  }

  lemma {:induction false} KnownElements(ts: seq<Type>)
    ensures forall a :: a in Known(ts) <==> a in ts && !a.Dynamic?
  {
    forall a ensures a in Known(ts) <==> a in ts && !a.Dynamic? {
      assert a in ts <==> a in multiset(ts);
    }
  }

  lemma {:induction false} UniformSequence(ts: seq<Type>, e: Type)
    requires e in ts && !e.Dynamic?
    requires forall c :: c in ts ==> c == e || c.Dynamic?
    ensures UnifyAll(ts) == e
  {
    KnownElements(ts);
    UniformKeepsType(ts, e);
  }

  /** When the known components agree, every attribute order yields their common type. */
  lemma {:induction false} UniformElementType(order: Order, t: Type, e: Type)
    requires Lawful(order)
    requires e in Components(t) && !e.Dynamic?
    requires forall c :: c in Components(t) ==> c == e || c.Dynamic?
    ensures ElementTypeOf(order, t) == e
  {
    match t
    case Tuple(ts) =>
      assert e in Known(ts);
      UniformSequence(ts, e);
    case Object(attrs, _) =>
      var ts := order(attrs);
      assert Enumerates(ts, attrs);
      EnumeratedAreValues(ts, attrs);
      assert e in Elements(ts);
      UniformSequence(ts, e);
    case _ =>
  }

  /** `x` is `t` itself or lies somewhere inside it. */
  ghost predicate Within(x: Type, t: Type) {
    x == t || exists c :: c in Components(t) && c < t && Within(x, c)
  }

  /** The recursive test finds an unknown type exactly when there is one at some depth. */
  lemma {:induction false} ContainsDynamicIff(t: Type)
    ensures ContainsDynamic(t) <==> Within(Dynamic, t)
    decreases t
  {
    forall c | c in Components(t) && c < t ensures ContainsDynamic(c) <==> Within(Dynamic, c) {
      ContainsDynamicIff(c);
    }
    match t
    case Tuple(ts) =>
      assert forall i :: 0 <= i < |ts| ==> ts[i] in Components(t);
    case Object(attrs, _) =>
      assert forall n :: n in attrs ==> attrs[n] in Components(t) && attrs[n] < t;
    case List(e) => assert e in Components(t);
    case Set(e) => assert e in Components(t);
    case Map(e) => assert e in Components(t);
    case _ =>
  }

  // ------------------------------------------------------------------ flatten

  /** Strips nested lists, sets and tuples until something else is reached. */
  function Innermost(order: Order, t: Type): (r: Type)
    ensures !IsSequence(r)
    decreases if t.Dynamic? then 0 else 1, t
  {
    if IsSequence(t) then
      UnifyAllIsAlternative(if t.Tuple? then t.elems else []);
      Innermost(order, ElementTypeOf(order, t))
    else
      t
  }

  /** The result type of `flatten` applied to a value of type `src`. */
  function FlattenType(order: Order, src: Type): Type {
    var elem := Innermost(order, ElementTypeOf(order, src));
    if elem.Dynamic? then Dynamic else List(elem)
  }

  /** `src` is `t` under `n` layers of lists and sets. */
  ghost predicate NestedSequence(src: Type, n: nat, t: Type)
    decreases n
  {
    if n == 0 then src == t
    else (src.List? || src.Set?) && NestedSequence(src.elem, n - 1, t)
  }

  lemma {:induction false} FlattenYieldsFlatList(order: Order, src: Type)
    ensures var r := FlattenType(order, src); r.Dynamic? || (r.List? && !IsSequence(r.elem) && !r.elem.Dynamic?)
  {
  }

  /** However deeply lists and sets are nested around `t`, `flatten` finds `t`. */
  lemma {:induction false} FlattenNested(order: Order, src: Type, n: nat, t: Type)
    requires n >= 1 && NestedSequence(src, n, t)
    requires !t.Dynamic? && !IsSequence(t)
    ensures FlattenType(order, src) == List(t)
    decreases n
  {
    if n > 1 {
      FlattenNested(order, src.elem, n - 1, t);
    }
  }
}
