/**
  Why the lexical theorem needs its hypotheses: a local is inferred under the caller's `for` scope
  and its type is memoised, so iterator capture, or a reference cycle, makes the types of outputs
  depend on the order in which they are visited.
 */
module InferenceLimits {
  import opened Basics
  import opened CtyTypes
  import opened Inference
  import opened InferenceLaws

  function LocalsOnly(locals: map<string, Expr>, outputs: map<string, Expr>, order: Order): Symbols {
    Symbols(map[], locals, map[], outputs, None, order)
  }

  function LocalRef(name: string): Expr {
    ScopeTraversal([Root("local"), Attr(name)])
  }

  /** Following a reference to a local is all that inferring the reference does. */
  lemma {:induction false} RunRef(m: Symbols, scope: Scope, busy: set<string>, cache: Cache, name: string)
    requires LookupScope(scope, "local") == None
    ensures LocalRefs(LocalRef(name)) == {name}
    ensures Run(m, scope, busy, cache, LocalRef(name)) == RunLocal(m, scope, busy, cache, name, LocalRef(name))
  {
    var steps := LocalRef(name).steps;
    assert steps[1..] == [Attr(name)];
    var empty: seq<Step> := [];
    assert [Attr(name)][1..] == empty;
    assert TraversalNames(empty) == Some([]);
    assert [name] + [] == [name];
    assert SplitTraversal(steps) == Some(("local", [name]));
    assert [name][1..] == [];
    assert Resolve(m, scope, steps) == ToLocal(name, []);
  }

  /** A bare root: the iterator's type when some iterator has that name, and unknown otherwise. */
  lemma {:induction false} RunBare(m: Symbols, scope: Scope, busy: set<string>, cache: Cache)
    ensures var e := ScopeTraversal([Root("x")]);
            var t := LookupScope(scope, "x");
            LocalRefs(e) == {} && Run(m, scope, busy, cache, e) == Outcome(if t.Some? then t.value else Dynamic, cache)
  {
    var e := ScopeTraversal([Root("x")]);
    assert e.steps[1..] == [];
    assert SplitTraversal(e.steps) == Some(("x", []));
  }

  /** A tuple of one expression. */
  lemma {:induction false} RunSingleton(m: Symbols, scope: Scope, busy: set<string>, cache: Cache, x: Expr)
    ensures var r := Run(m, scope, busy, cache, x);
            Run(m, scope, busy, cache, TupleCons([x])) == Outcome(Tuple([r.t]), r.cache)
  {
    var e := TupleCons([x]);
    var r := Run(m, scope, busy, cache, x);
    assert Operands(e) == [x] && [x][1..] == [];
    assert RunAll(m, scope, busy, r.cache, e, []) == Outcomes([], r.cache);
    assert [r.t] + [] == [r.t];
    assert RunAll(m, scope, busy, cache, e, [x]) == Outcomes([r.t], r.cache);
  }

  /** If visiting `b` first changes the type of the output `a`, the two orders differ. */
  lemma {:induction false} OrderMatters(m: Symbols, a: string, b: string)
    requires a != b && a in m.outputs && b in m.outputs
    requires Run(m, [], {}, map[], m.outputs[a]).t
          != Run(m, [], {}, Run(m, [], {}, map[], m.outputs[b]).cache, m.outputs[a]).t
    ensures OutputsFrom(m, map[], [a, b]) != OutputsFrom(m, map[], [b, a])
  {
    hide Run, OutputsFrom, ConfidenceFor;
    OutputsInOrder(m, a, b);
    OutputsInOrder(m, b, a);
    var after := NextCache(m, map[], b);
    assert OutputsFrom(m, map[], [a, b])[a] == GradeOf(m, map[], a);
    assert OutputsFrom(m, map[], [b, a])[a] == GradeOf(m, after, a);
    assert GradeOf(m, map[], a).t != GradeOf(m, after, a).t;
  }

  lemma {:induction false} OutputsInOrder(m: Symbols, first: string, second: string)
    ensures OutputsFrom(m, map[], [first, second])
         == map[first := GradeOf(m, map[], first)] + map[second := GradeOf(m, NextCache(m, map[], first), second)]
  {
    hide Run, Grade;
    var none: seq<string> := [];
    assert [first, second][1..] == [second] && [second][1..] == none;
    var c1 := NextCache(m, map[], first);
    assert OutputsFrom(m, NextCache(m, c1, second), none) == map[];
    assert OutputsFrom(m, c1, [second]) == map[second := GradeOf(m, c1, second)] + map[];
  }

  // ------------------------------------------------------------------ capture

  /** `local.l` is the bare reference `x`. */
  function CapturedLocal(): map<string, Expr> {
    map["l" := ScopeTraversal([Root("x")])]
  }

  /** `[for x in [0] : local.l]` */
  function Loop(): Expr {
    For("", "x", TupleCons([Literal(Number)]), false, false, LocalRef("l"))
  }

  /** The loop infers its body once, with the iterator bound to a number. */
  lemma {:induction false} RunLoopBody(m: Symbols, cache: Cache)
    ensures var v := Run(m, [map["x" := Number]], {}, cache, LocalRef("l"));
            Run(m, [], {}, cache, Loop()) == Outcome(if v.t.Dynamic? then Dynamic else List(v.t), v.cache)
  {
    hide TypeRule, Resolve, RunLocal, RunAll;
    RunSingleton(m, [], {}, cache, Literal(Number));
    assert Run(m, [], {}, cache, Literal(Number)) == Outcome(Number, cache) by { RunLiteral(m, cache); }
    assert UnifyAll([Number]) == Number;
    assert Bindings(m.order, Loop(), Tuple([Number])) == map["x" := Number];
    assert [] + [map["x" := Number]] == [map["x" := Number]];
  }

  lemma {:induction false} RunLiteral(m: Symbols, cache: Cache)
    ensures Run(m, [], {}, cache, Literal(Number)) == Outcome(Number, cache)
  {
  }

  lemma {:induction false} RunLoop(m: Symbols, cache: Cache)
    requires m.locals == CapturedLocal()
    requires cache == map[] || cache == map["l" := Dynamic]
    ensures Run(m, [], {}, cache, Loop()).t == if cache == map[] then List(Number) else Dynamic
  {
    hide Run;
    var inner: Scope := [map["x" := Number]];
    RunLoopBody(m, cache);
    RunRef(m, inner, {}, cache, "l");
    RunBare(m, inner, {} + {"l"}, cache);
    assert LookupScope(inner, "x") == Some(Number);
  }

  lemma {:induction false} CapturedIsAcyclic(m: Symbols)
    requires m.locals == CapturedLocal()
    ensures Acyclic(m)
  {
    RunBare(m, [], {}, map[]);
    var rank: map<string, nat> := map["l" := 0];
    assert Ranks(rank, m);
  }

  lemma {:induction false} RunPlain(m: Symbols)
    requires m.locals == CapturedLocal()
    ensures Run(m, [], {}, map[], LocalRef("l")) == Outcome(Dynamic, map["l" := Dynamic])
  {
    RunRef(m, [], {}, map[], "l");
    RunBare(m, [], {} + {"l"}, map[]);
  }

  /** The loop's iterator is a free root of the local's body. */
  lemma {:induction false} LoopCaptures(m: Symbols, names: set<string>)
    requires m.locals == CapturedLocal() && "loop" in m.outputs && m.outputs["loop"] == Loop()
    ensures !OutputsCaptureFree(m, names)
  {
    var body := ScopeTraversal([Root("x")]);
    assert body.steps[1..] == [];
    assert SplitTraversal(body.steps) == Some(("x", []));
    assert "x" in FreeRoots(m.locals["l"]);
    assert "x" in IteratorNames(Loop());
    assert "x" in Iterators(Loop());
  }

  /**
    Under every attribute order: an acyclic module in which an iterator captures a root of a local,
    and whose outputs are typed differently when visited in the other order.
   */
  lemma {:induction false} CaptureBreaksOrder(order: Order) returns (m: Symbols)
    requires Lawful(order)
    ensures m.order == order && Acyclic(m) && forall names :: !OutputsCaptureFree(m, names)
    ensures OutputsFrom(m, map[], ["loop", "plain"]) != OutputsFrom(m, map[], ["plain", "loop"])
  {
    hide Run, TypeRule, Ranks, LocalRef, Loop, CapturedLocal, OutputsCaptureFree;
    m := LocalsOnly(CapturedLocal(), map["plain" := LocalRef("l"), "loop" := Loop()], order);
    forall names ensures !OutputsCaptureFree(m, names) {
      LoopCaptures(m, names);
    }
    assert m.outputs["loop"] == Loop() && m.outputs["plain"] == LocalRef("l");
    CapturedIsAcyclic(m);
    RunPlain(m);
    RunLoop(m, map[]);
    RunLoop(m, map["l" := Dynamic]);
    var cached: Cache := map["l" := Dynamic];
    assert "l" in cached;
    OrderMatters(m, "loop", "plain");
  }

  // ------------------------------------------------------------------ cycles

  /** `a = local.b` and `b = [local.a]` */
  function CyclicLocals(): map<string, Expr> {
    map["a" := LocalRef("b"), "b" := TupleCons([LocalRef("a")])]
  }

  /** Inside `b`'s body: the reference to `a` is cut when `a` is being resolved, else `a` cuts at `b`. */
  lemma {:induction false} RunTuple(m: Symbols, busy: set<string>)
    requires m.locals == CyclicLocals() && "b" in busy
    ensures Run(m, [], busy, map[], m.locals["b"])
         == Outcome(Tuple([Dynamic]), if "a" in busy then map[] else map["a" := Dynamic])
  {
    var inner := busy + {"a"};
    RunSingleton(m, [], busy, map[], LocalRef("a"));
    RunRef(m, [], busy, map[], "a");
    RunRef(m, [], inner, map[], "b");
    assert Run(m, [], inner, map[], m.locals["a"]) == Outcome(Dynamic, map[]);
    assert RunLocal(m, [], busy, map[], "a", LocalRef("a"))
        == Outcome(Dynamic, if "a" in busy then map[] else map["a" := Dynamic]);
  }

  lemma {:induction false} RunAFirst(m: Symbols)
    requires m.locals == CyclicLocals()
    ensures Run(m, [], {}, map[], LocalRef("a")).t == Tuple([Dynamic])
  {
    var a, ab := {} + {"a"}, {} + {"a"} + {"b"};
    RunRef(m, [], {}, map[], "a");
    RunRef(m, [], a, map[], "b");
    RunTuple(m, ab);
    assert RunLocal(m, [], a, map[], "b", LocalRef("b")).t == Tuple([Dynamic]);
    assert Run(m, [], a, map[], m.locals["a"]).t == Tuple([Dynamic]);
  }

  lemma {:induction false} RunBFirst(m: Symbols)
    requires m.locals == CyclicLocals()
    ensures Run(m, [], {}, map[], LocalRef("b")) == Outcome(Tuple([Dynamic]), map["a" := Dynamic, "b" := Tuple([Dynamic])])
  {
    RunRef(m, [], {}, map[], "b");
    RunTuple(m, {} + {"b"});
  }

  /**
    Under every attribute order: in a cycle the local visited first decides where the cycle is cut, and
    the cut is memoised; nothing is captured, because the module binds no iterator.
   */
  lemma {:induction false} CycleBreaksOrder(order: Order) returns (m: Symbols)
    requires Lawful(order)
    ensures m.order == order && !Acyclic(m) && OutputsCaptureFree(m, {})
    ensures OutputsFrom(m, map[], ["a", "b"]) != OutputsFrom(m, map[], ["b", "a"])
  {
    hide Run, TypeRule, LocalRef, CyclicLocals, CaptureFree, Acyclic;
    var refA, refB := LocalRef("a"), LocalRef("b");
    m := LocalsOnly(CyclicLocals(), map["a" := refA, "b" := refB], order);
    assert m.outputs["a"] == refA && m.outputs["b"] == refB;
    CyclesBindNothing(m);
    ReferencesBindNothing(m);
    CyclesHaveNoRank(m);
    RunAFirst(m);
    RunBFirst(m);
    var after := Run(m, [], {}, map[], refB).cache;
    RunRef(m, [], {}, after, "a");
    OrderMatters(m, "a", "b");
  }

  lemma {:induction false} CyclesBindNothing(m: Symbols)
    requires m.locals == CyclicLocals()
    ensures CaptureFree(m, {})
  {
    NoIterators(m.locals["a"]);
    var tuple := m.locals["b"];
    assert tuple == TupleCons([LocalRef("a")]);
    assert Parts(tuple) == [LocalRef("a")];
    NoIterators(LocalRef("a"));
    assert Iterators(tuple) == {};
    assert forall n :: n in m.locals ==> n == "a" || n == "b";
  }

  lemma {:induction false} ReferencesBindNothing(m: Symbols)
    requires m.outputs == map["a" := LocalRef("a"), "b" := LocalRef("b")]
    ensures forall n :: n in m.outputs ==> Iterators(m.outputs[n]) <= {}
  {
    NoIterators(LocalRef("a"));
    NoIterators(LocalRef("b"));
  }

  lemma {:induction false} CyclesHaveNoRank(m: Symbols)
    requires m.locals == CyclicLocals()
    ensures !Acyclic(m)
  {
    RunRef(m, [], {}, map[], "a");
    RunRef(m, [], {}, map[], "b");
    var tuple := TupleCons([LocalRef("a")]);
    assert Parts(tuple)[0] == LocalRef("a");
    assert "a" in LocalRefs(tuple);
    assert "b" in LocalRefs(m.locals["a"]) && "a" in LocalRefs(m.locals["b"]);
  }

  lemma {:induction false} NoIterators(e: Expr)
    requires e.ScopeTraversal?
    ensures Iterators(e) == {}
  {
    assert Parts(e) == [];
  }
}
