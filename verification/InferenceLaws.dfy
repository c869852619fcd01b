/**
  What output inference guarantees: it leaves its bookkeeping as it found it, never rewrites a
  memoised type, and on acyclic modules without iterator capture computes the lexical reference
  meaning whatever was memoised before.
 */
module InferenceLaws {
  import opened Basics
  import opened CtyTypes
  import opened Inference

  // ------------------------------------------------------------------ the memo table only grows

  /** `after` keeps every entry of `before` and adds only locals that were not being resolved. */
  ghost predicate Grows(m: Symbols, busy: set<string>, before: Cache, after: Cache) {
    && (forall n :: n in before ==> n in after && after[n] == before[n])
    && (forall n :: n in after && n !in before ==> n in m.locals && n !in busy)
  }

  lemma {:induction false} CacheOnlyGrows(m: Symbols, scope: Scope, busy: set<string>, cache: Cache, e: Expr)
    ensures Grows(m, busy, cache, Run(m, scope, busy, cache, e).cache)
    decreases m.locals.Keys - busy, e
  {
    hide TypeRule, Operands, Resolve, ForType, Bindings, ApplyPath;
    match e
    case ScopeTraversal(steps) =>
      var target := Resolve(m, scope, steps);
      if target.ToLocal? && target.name !in cache && target.name !in busy && target.name in m.locals {
        CacheOnlyGrows(m, scope, busy + {target.name}, cache, m.locals[target.name]);
      }
    case For(_, _, coll, _, _, val) =>
      CacheOnlyGrows(m, scope, busy, cache, coll);
      var c := Run(m, scope, busy, cache, coll);
      CacheOnlyGrows(m, scope + [Bindings(m.order, e, c.t)], busy, c.cache, val);
    case _ =>
      CacheOnlyGrowsAll(m, scope, busy, cache, e, Operands(e));
  }

  lemma {:induction false} CacheOnlyGrowsAll(m: Symbols, scope: Scope, busy: set<string>, cache: Cache, within: Expr, es: seq<Expr>)
    requires Inside(es, within)
    ensures Grows(m, busy, cache, RunAll(m, scope, busy, cache, within, es).cache)
    decreases m.locals.Keys - busy, within, |es|
  {
    hide Run;
    if es != [] {
      CacheOnlyGrows(m, scope, busy, cache, es[0]);
      CacheOnlyGrowsAll(m, scope, busy, Run(m, scope, busy, cache, es[0]).cache, within, es[1..]);
    }
  }

  // ------------------------------------------------------------------ scopes without capture

  lemma {:induction false} OuterScopeUnseen(outer: Scope, inner: Scope, name: string)
    requires name in ScopeNames(inner) || name !in ScopeNames(outer)
    ensures LookupScope(outer + inner, name) == LookupScope(inner, name)
    decreases |outer| + |inner|
  {
    if inner != [] {
      var k := |inner| - 1;
      assert (outer + inner)[..|outer| + k] == outer + inner[..k];
      if name !in inner[k] {
        assert name in ScopeNames(inner) ==> name in ScopeNames(inner[..k]);
        OuterScopeUnseen(outer, inner[..k], name);
      }
    } else {
      assert outer + inner == outer;
      if outer != [] {
        var k := |outer| - 1;
        assert name !in outer[k];
        assert outer[..k] + [] == outer[..k];
        OuterScopeUnseen(outer[..k], [], name);
      }
    }
  }

  /** Each free root of `e` is bound by `inner` or not bound by `outer`. */
  ghost predicate NotCaptured(e: Expr, outer: Scope, inner: Scope) {
    forall r :: r in FreeRoots(e) ==> r in ScopeNames(inner) || r !in ScopeNames(outer)
  }

  /** An expression whose free roots are not captured means the same under any surrounding scope. */
  lemma {:induction false} MeaningIsLexical(m: Symbols, types: map<string, Type>, outer: Scope, inner: Scope, e: Expr)
    requires NotCaptured(e, outer, inner)
    ensures Meaning(m, types, outer + inner, e) == Meaning(m, types, inner, e)
    decreases e
  {
    hide TypeRule, Operands, Resolve, ForType, ApplyPath, FreeRoots, Bindings;
    match e
    case ScopeTraversal(steps) =>
      ResolvesAlike(m, outer, inner, e);
    case For(_, _, _, _, _, _) =>
      ForIsLexical(m, types, outer, inner, e);
    case _ =>
      OperandsNotCaptured(e, outer, inner);
      MeaningsAreLexical(m, types, outer, inner, e, Operands(e));
  }

  lemma {:induction false} ResolvesAlike(m: Symbols, outer: Scope, inner: Scope, e: Expr)
    requires e.ScopeTraversal? && NotCaptured(e, outer, inner)
    ensures Resolve(m, outer + inner, e.steps) == Resolve(m, inner, e.steps)
  {
    hide ResolveRoot, TraversalNames, ScopeNames, LookupScope, ApplyPath;
    if SplitTraversal(e.steps).Some? {
      OuterScopeUnseen(outer, inner, SplitTraversal(e.steps).value.0);
    }
  }

  lemma {:induction false} OperandsNotCaptured(e: Expr, outer: Scope, inner: Scope)
    requires !e.For? && !e.ScopeTraversal? && NotCaptured(e, outer, inner)
    ensures forall i :: 0 <= i < |Operands(e)| ==> NotCaptured(Operands(e)[i], outer, inner)
  {
    hide Operands, ScopeNames;
  }

  lemma {:induction false} ForIsLexical(m: Symbols, types: map<string, Type>, outer: Scope, inner: Scope, e: Expr)
    requires e.For? && NotCaptured(e, outer, inner)
    ensures Meaning(m, types, outer + inner, e) == Meaning(m, types, inner, e)
    decreases e, 0
  {
    hide TypeRule, Resolve, ForType, ElementTypeOf, ForKeyType, NotCaptured;
    assert NotCaptured(e.coll, outer, inner) by { CollectionNotCaptured(e, outer, inner); }
    MeaningIsLexical(m, types, outer, inner, e.coll);
    var b := Bindings(m.order, e, Meaning(m, types, inner, e.coll));
    assert (outer + inner) + [b] == outer + (inner + [b]);
    BodyNotCaptured(e, outer, inner, b);
    MeaningIsLexical(m, types, outer, inner + [b], e.val);
  }

  lemma {:induction false} CollectionNotCaptured(e: Expr, outer: Scope, inner: Scope)
    requires e.For? && NotCaptured(e, outer, inner)
    ensures NotCaptured(e.coll, outer, inner)
  {
    hide ScopeNames;
  }

  lemma {:induction false} BodyNotCaptured(e: Expr, outer: Scope, inner: Scope, b: map<string, Type>)
    requires e.For? && NotCaptured(e, outer, inner) && b.Keys == IteratorNames(e)
    ensures NotCaptured(e.val, outer, inner + [b])
  {
    hide ScopeNames, IteratorNames;
    ScopeNamesExtend(inner, b);
  }

  lemma {:induction false} MeaningsAreLexical(m: Symbols, types: map<string, Type>, outer: Scope, inner: Scope, within: Expr, es: seq<Expr>)
    requires Inside(es, within)
    requires forall i :: 0 <= i < |es| ==> NotCaptured(es[i], outer, inner)
    ensures Meanings(m, types, outer + inner, within, es) == Meanings(m, types, inner, within, es)
    decreases within, |es|
  {
    hide Meaning, FreeRoots;
    if es != [] {
      MeaningIsLexical(m, types, outer, inner, es[0]);
      MeaningsAreLexical(m, types, outer, inner, within, es[1..]);
    }
  }

  // ------------------------------------------------------------------ memoised inference is lexical

  ghost predicate Coherent(cache: Cache, types: map<string, Type>) {
    forall n :: n in cache ==> n in types && cache[n] == types[n]
  }

  /** The locals `e` mentions rank strictly below every local being resolved. */
  ghost predicate Below(rank: map<string, nat>, e: Expr, busy: set<string>) {
    forall n, b :: n in LocalRefs(e) && n in rank && b in busy ==> b in rank && rank[n] < rank[b]
  }

  /** The module is acyclic with solution `types`, and no name in `names` captures a root in a local. */
  ghost predicate WellBehaved(m: Symbols, rank: map<string, nat>, types: map<string, Type>, names: set<string>) {
    Ranks(rank, m) && Solution(m, types) && CaptureFree(m, names)
  }

  lemma {:induction false} MemoisedMeaning(m: Symbols, rank: map<string, nat>, types: map<string, Type>,
      names: set<string>, scope: Scope, busy: set<string>, cache: Cache, e: Expr)
    requires WellBehaved(m, rank, types, names)
    requires Iterators(e) <= names && ScopeNames(scope) <= names
    requires Below(rank, e, busy) && Coherent(cache, types)
    ensures var r := Run(m, scope, busy, cache, e);
            r.t == Meaning(m, types, scope, e) && Coherent(r.cache, types)
    decreases m.locals.Keys - busy, e
  {
    hide TypeRule, Operands, Resolve, ForType, Bindings, ApplyPath, Below, WellBehaved, Coherent, Iterators, ScopeNames;
    match e
    case ScopeTraversal(steps) =>
      var target := Resolve(m, scope, steps);
      if target.ToLocal? {
        var name := target.name;
        LocalTarget(m, scope, e, name, target.rest);
        MemoisedLocal(m, rank, types, names, scope, busy, cache, name, e);
      }
    case For(_, _, _, _, _, _) =>
      MemoisedFor(m, rank, types, names, scope, busy, cache, e);
    case _ =>
      PartsOfOperands(rank, e, busy);
      MemoisedMeanings(m, rank, types, names, scope, busy, cache, e, Operands(e));
  }

  lemma {:induction false} MemoisedFor(m: Symbols, rank: map<string, nat>, types: map<string, Type>,
      names: set<string>, scope: Scope, busy: set<string>, cache: Cache, e: Expr)
    requires WellBehaved(m, rank, types, names)
    requires e.For? && Iterators(e) <= names && ScopeNames(scope) <= names
    requires Below(rank, e, busy) && Coherent(cache, types)
    ensures var r := Run(m, scope, busy, cache, e);
            r.t == Meaning(m, types, scope, e) && Coherent(r.cache, types)
    decreases m.locals.Keys - busy, e, 0
  {
    hide TypeRule, Operands, Resolve, ForType, ApplyPath, Below, WellBehaved, Coherent, Iterators, ElementTypeOf, ForKeyType;
    PartsOfFor(rank, e, busy);
    MemoisedMeaning(m, rank, types, names, scope, busy, cache, e.coll);
    var c := Run(m, scope, busy, cache, e.coll);
    var b := Bindings(m.order, e, c.t);
    ScopeNamesExtend(scope, b);
    MemoisedMeaning(m, rank, types, names, scope + [b], busy, c.cache, e.val);
  }

  lemma {:induction false} MemoisedLocal(m: Symbols, rank: map<string, nat>, types: map<string, Type>,
      names: set<string>, scope: Scope, busy: set<string>, cache: Cache, name: string, at: Expr)
    requires WellBehaved(m, rank, types, names)
    requires ScopeNames(scope) <= names && name in LocalRefs(at)
    requires Below(rank, at, busy) && Coherent(cache, types)
    ensures var r := RunLocal(m, scope, busy, cache, name, at);
            r.t == (if name in types then types[name] else Dynamic) && Coherent(r.cache, types)
    decreases m.locals.Keys - busy, at, 0
  {
    hide Run, Meaning, LocalRefs;
    if name !in cache && name in m.locals {
      EnterBody(m, rank, busy, name, at);
      BodyIsLexical(m, types, names, scope, name);
      MemoisedMeaning(m, rank, types, names, scope, busy + {name}, cache, m.locals[name]);
    }
  }

  /** The locals a body mentions rank below the local itself, hence below everything being resolved. */
  lemma {:induction false} EnterBody(m: Symbols, rank: map<string, nat>, busy: set<string>, name: string, at: Expr)
    requires Ranks(rank, m) && name in m.locals && name in LocalRefs(at) && Below(rank, at, busy)
    ensures name !in busy && Below(rank, m.locals[name], busy + {name})
  {
    hide LocalRefs;
    forall n, b | n in LocalRefs(m.locals[name]) && n in rank && b in busy + {name}
      ensures b in rank && rank[n] < rank[b]
    {
      assert rank[n] < rank[name];
    }
  }

  lemma {:induction false} BodyIsLexical(m: Symbols, types: map<string, Type>, names: set<string>, scope: Scope, name: string)
    requires Solution(m, types) && CaptureFree(m, names) && ScopeNames(scope) <= names && name in m.locals
    ensures Iterators(m.locals[name]) <= names
    ensures types[name] == Meaning(m, types, scope, m.locals[name])
  {
    hide Meaning, Iterators, FreeRoots;
    assert scope + [] == scope;
    assert FreeRoots(m.locals[name]) !! names;
    MeaningIsLexical(m, types, scope, [], m.locals[name]);
  }

  lemma {:induction false} ScopeNamesExtend(scope: Scope, b: map<string, Type>)
    ensures ScopeNames(scope + [b]) == ScopeNames(scope) + b.Keys
  {
    var longer := scope + [b];
    forall n ensures n in ScopeNames(longer) <==> n in ScopeNames(scope) + b.Keys {
      if n in ScopeNames(scope) {
        var i :| 0 <= i < |scope| && n in scope[i];
        assert n in longer[i];
      }
      if n in b {
        assert n in longer[|scope|];
      }
    }
  }

  lemma {:induction false} MemoisedMeanings(m: Symbols, rank: map<string, nat>, types: map<string, Type>,
      names: set<string>, scope: Scope, busy: set<string>, cache: Cache, within: Expr, es: seq<Expr>)
    requires WellBehaved(m, rank, types, names)
    requires Inside(es, within) && ScopeNames(scope) <= names
    requires forall i :: 0 <= i < |es| ==> Iterators(es[i]) <= names && Below(rank, es[i], busy)
    requires Coherent(cache, types)
    ensures var r := RunAll(m, scope, busy, cache, within, es);
            r.ts == Meanings(m, types, scope, within, es) && Coherent(r.cache, types)
    decreases m.locals.Keys - busy, within, |es|
  {
    hide Run, Meaning, Below, WellBehaved, Iterators, ScopeNames;
    if es != [] {
      MemoisedMeaning(m, rank, types, names, scope, busy, cache, es[0]);
      var first := Run(m, scope, busy, cache, es[0]);
      MemoisedMeanings(m, rank, types, names, scope, busy, first.cache, within, es[1..]);
    }
  }

  lemma {:induction false} LocalTarget(m: Symbols, scope: Scope, e: Expr, name: string, rest: seq<string>)
    requires e.ScopeTraversal? && Resolve(m, scope, e.steps) == ToLocal(name, rest)
    ensures name in LocalRefs(e)
  {
  }

  lemma {:induction false} PartNames(e: Expr, i: nat)
    requires !e.ScopeTraversal? && i < |Parts(e)|
    ensures Iterators(Parts(e)[i]) <= Iterators(e) && LocalRefs(Parts(e)[i]) <= LocalRefs(e)
  {
    hide Operands;
  }

  lemma {:induction false} PartsOfFor(rank: map<string, nat>, e: Expr, busy: set<string>)
    requires e.For?
    ensures Iterators(e.coll) <= Iterators(e) && Iterators(e.val) <= Iterators(e) && IteratorNames(e) <= Iterators(e)
    ensures Below(rank, e, busy) ==> Below(rank, e.coll, busy) && Below(rank, e.val, busy)
  {
    hide LocalRefs, Iterators;
    PartNames(e, 0);
    PartNames(e, 1);
    OwnIterators(e);
  }

  lemma {:induction false} OwnIterators(e: Expr)
    requires e.For?
    ensures IteratorNames(e) <= Iterators(e)
  {
    hide IteratorNames, Parts;
  }

  lemma {:induction false} PartsOfOperands(rank: map<string, nat>, e: Expr, busy: set<string>)
    requires !e.ScopeTraversal? && !e.For?
    ensures forall i :: 0 <= i < |Operands(e)| ==> Iterators(Operands(e)[i]) <= Iterators(e)
    ensures Below(rank, e, busy) ==> forall i :: 0 <= i < |Operands(e)| ==> Below(rank, Operands(e)[i], busy)
  {
    hide Iterators, LocalRefs, Operands;
    forall i | 0 <= i < |Operands(e)|
      ensures Iterators(Operands(e)[i]) <= Iterators(e)
      ensures Below(rank, e, busy) ==> Below(rank, Operands(e)[i], busy)
    {
      PartNames(e, i);
    }
  }

  // ------------------------------------------------------------------ the reference exists and is unique

  /** The two assignments give the same types to the locals `names`. */
  ghost predicate Agree(t1: map<string, Type>, t2: map<string, Type>, names: set<string>) {
    forall n :: n in names ==> (n in t1 <==> n in t2) && (n in t1 ==> t1[n] == t2[n])
  }

  /** The meaning of an expression depends only on the locals it mentions. */
  lemma {:induction false} MeaningDependsOnRefs(m: Symbols, t1: map<string, Type>, t2: map<string, Type>, scope: Scope, e: Expr)
    requires Agree(t1, t2, LocalRefs(e))
    ensures Meaning(m, t1, scope, e) == Meaning(m, t2, scope, e)
    decreases e
  {
    hide TypeRule, Resolve, ForType, Bindings, Operands, LocalRefs;
    match e
    case ScopeTraversal(steps) =>
      var target := Resolve(m, scope, steps);
      if target.ToLocal? {
        LocalTarget(m, scope, e, target.name, target.rest);
      }
    case For(_, _, _, _, _, _) =>
      ForDependsOnRefs(m, t1, t2, scope, e);
    case _ =>
      OperandsAgree(t1, t2, e);
      MeaningsDependOnRefs(m, t1, t2, scope, e, Operands(e));
  }

  lemma {:induction false} ForDependsOnRefs(m: Symbols, t1: map<string, Type>, t2: map<string, Type>, scope: Scope, e: Expr)
    requires e.For? && Agree(t1, t2, LocalRefs(e))
    ensures Meaning(m, t1, scope, e) == Meaning(m, t2, scope, e)
    decreases e, 0
  {
    hide TypeRule, Resolve, ForType, Bindings, Operands, LocalRefs;
    PartNames(e, 0);
    PartNames(e, 1);
    MeaningDependsOnRefs(m, t1, t2, scope, e.coll);
    MeaningDependsOnRefs(m, t1, t2, scope + [Bindings(m.order, e, Meaning(m, t1, scope, e.coll))], e.val);
  }

  lemma {:induction false} OperandsAgree(t1: map<string, Type>, t2: map<string, Type>, e: Expr)
    requires !e.For? && !e.ScopeTraversal? && Agree(t1, t2, LocalRefs(e))
    ensures forall i :: 0 <= i < |Operands(e)| ==> Agree(t1, t2, LocalRefs(Operands(e)[i]))
  {
    hide LocalRefs, Operands;
    forall i | 0 <= i < |Operands(e)| ensures Agree(t1, t2, LocalRefs(Operands(e)[i])) {
      PartNames(e, i);
    }
  }

  lemma {:induction false} MeaningsDependOnRefs(m: Symbols, t1: map<string, Type>, t2: map<string, Type>, scope: Scope, within: Expr, es: seq<Expr>)
    requires Inside(es, within)
    requires forall i :: 0 <= i < |es| ==> Agree(t1, t2, LocalRefs(es[i]))
    ensures Meanings(m, t1, scope, within, es) == Meanings(m, t2, scope, within, es)
    decreases within, |es|
  {
    hide Meaning, LocalRefs, Agree;
    if es != [] {
      MeaningDependsOnRefs(m, t1, t2, scope, es[0]);
      MeaningsDependOnRefs(m, t1, t2, scope, within, es[1..]);
    }
  }

  /** Locals ranked below `bound`, and `types` solves their equations. */
  ghost predicate SolvesBelow(m: Symbols, rank: map<string, nat>, bound: nat, types: map<string, Type>) {
    && (forall n :: n in types <==> n in rank && rank[n] < bound)
    && (forall n :: n in types && n in m.locals ==> types[n] == Meaning(m, types, [], m.locals[n]))
  }

  lemma {:induction false} SolveBelow(m: Symbols, rank: map<string, nat>, bound: nat) returns (types: map<string, Type>)
    requires Ranks(rank, m)
    ensures SolvesBelow(m, rank, bound, types)
    decreases bound
  {
    hide Meaning, LocalRefs;
    if bound == 0 {
      types := map[];
    } else {
      var lower := SolveBelow(m, rank, bound - 1);
      types := map n | n in rank && rank[n] < bound :: Meaning(m, lower, [], m.locals[n]);
      forall n | n in types ensures types[n] == Meaning(m, types, [], m.locals[n]) {
        assert Agree(lower, types, LocalRefs(m.locals[n])) by {
          forall d | d in LocalRefs(m.locals[n])
            ensures (d in lower <==> d in types) && (d in lower ==> lower[d] == types[d])
          {
            if d in types {
              assert rank[d] < rank[n];
            }
          }
        }
        MeaningDependsOnRefs(m, lower, types, [], m.locals[n]);
      }
    }
  }

  lemma {:induction false} SolutionsAgreeBelow(m: Symbols, rank: map<string, nat>, bound: nat, t1: map<string, Type>, t2: map<string, Type>)
    requires Ranks(rank, m) && Solution(m, t1) && Solution(m, t2)
    ensures forall n :: n in rank && rank[n] < bound ==> t1[n] == t2[n]
    decreases bound
  {
    hide Meaning;
    if bound > 0 {
      SolutionsAgreeBelow(m, rank, bound - 1, t1, t2);
      forall n | n in rank && rank[n] < bound ensures t1[n] == t2[n] {
        MeaningDependsOnRefs(m, t1, t2, [], m.locals[n]);
      }
    }
  }

  ghost function Highest(rank: map<string, nat>, names: set<string>): (h: nat)
    requires names <= rank.Keys
    ensures forall n :: n in names ==> rank[n] < h
  {
    if names == {} then 0
    else
      var x :| x in names;
      var rest := Highest(rank, names - {x});
      if rank[x] < rest then rest else rank[x] + 1
  }

  /** An acyclic module assigns exactly one type to each of its locals. */
  lemma {:induction false} UniqueSolution(m: Symbols) returns (types: map<string, Type>)
    requires Acyclic(m)
    ensures Solution(m, types)
    ensures forall other :: Solution(m, other) ==> other == types
  {
    hide Meaning, LocalRefs;
    var rank :| Ranks(rank, m);
    var h := Highest(rank, rank.Keys);
    types := SolveBelow(m, rank, h);
    assert types.Keys == m.locals.Keys;
    forall other | Solution(m, other) ensures other == types {
      SolutionsAgreeBelow(m, rank, h, types, other);
    }
  }

  // ------------------------------------------------------------------ main results

  /**
    In an acyclic, capture-free module inference gives every expression its lexical meaning,
    whatever coherent types were memoised before, and leaves only such types in the memo table.
   */
  lemma {:induction false} InferenceIsLexical(m: Symbols, types: map<string, Type>, names: set<string>, cache: Cache, e: Expr)
    requires Acyclic(m) && Solution(m, types) && CaptureFree(m, names) && Iterators(e) <= names
    requires Coherent(cache, types)
    ensures Run(m, [], {}, cache, e).t == Meaning(m, types, [], e)
    ensures Coherent(Run(m, [], {}, cache, e).cache, types)
  {
    hide Run, Meaning;
    var rank :| Ranks(rank, m);
    MemoisedMeaning(m, rank, types, names, [], {}, cache, e);
  }

  /** Every output of `m` gets the type its expression means. */
  ghost function LexicalOutput(m: Symbols, types: map<string, Type>, name: string): Graded {
    if name in m.outputs then Grade(Meaning(m, types, [], m.outputs[name])) else Graded(Dynamic, Unknown)
  }

  ghost predicate OutputsCaptureFree(m: Symbols, names: set<string>) {
    CaptureFree(m, names) && forall n :: n in m.outputs ==> Iterators(m.outputs[n]) <= names
  }

  ghost function LexicalOutputs(m: Symbols, types: map<string, Type>, names: seq<string>): map<string, Graded> {
    map n | n in names :: LexicalOutput(m, types, n)
  }

  lemma {:induction false} OutputsAreLexical(m: Symbols, types: map<string, Type>, names: set<string>, cache: Cache, outputs: seq<string>)
    requires Acyclic(m) && Solution(m, types) && OutputsCaptureFree(m, names) && Coherent(cache, types)
    ensures OutputsFrom(m, cache, outputs) == LexicalOutputs(m, types, outputs)
    decreases |outputs|
  {
    hide Run, Meaning;
    if outputs != [] {
      var name := outputs[0];
      if name in m.outputs {
        InferenceIsLexical(m, types, names, cache, m.outputs[name]);
      }
      OutputsAreLexical(m, types, names, NextCache(m, cache, name), outputs[1..]);
      SplitFirst(m, types, outputs);
    }
  }

  lemma {:induction false} SplitFirst(m: Symbols, types: map<string, Type>, names: seq<string>)
    requires names != []
    ensures LexicalOutputs(m, types, names)
         == map[names[0] := LexicalOutput(m, types, names[0])] + LexicalOutputs(m, types, names[1..])
  {
    hide LexicalOutput;
    assert names == [names[0]] + names[1..];
  }

  /** Two passes over the same outputs, in whatever order, agree on every type and confidence. */
  lemma {:induction false} OutputOrderIrrelevant(m: Symbols, names: set<string>, outputs: seq<string>, reordered: seq<string>)
    requires Acyclic(m) && OutputsCaptureFree(m, names)
    requires Elements(outputs) == Elements(reordered)
    ensures OutputsFrom(m, map[], outputs) == OutputsFrom(m, map[], reordered)
  {
    hide OutputsFrom, Meaning;
    var types := UniqueSolution(m);
    OutputsAreLexical(m, types, names, map[], outputs);
    OutputsAreLexical(m, types, names, map[], reordered);
    assert forall n :: n in outputs <==> n in Elements(outputs);
    assert forall n :: n in reordered <==> n in Elements(reordered);
  }
}
