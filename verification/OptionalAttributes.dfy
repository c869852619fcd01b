/**
  Optional attributes of a type constraint, reported in two ways: as bare names and as dotted paths.
  Both views walk the type, and then the tree of defaults, whose children may sit under an empty key.
 */
module OptionalAttributes {
  import opened Basics
  import opened Strings
  import opened Sorting
  import opened CtyTypes

  /** The names that have a default, and the defaults further inside. */
  datatype Defaults = Defaults(values: set<string>, children: map<string, Defaults>)

  function Extend(prefix: string, name: string): string {
    if prefix != "" then prefix + "." + name else name
  }

  // ------------------------------------------------------------------ what is reported

  ghost function OptionalNames(t: Type): set<string> {
    match t
    case Object(attrs, optional) =>
      attrs.Keys * optional + set n, x | n in attrs && x in OptionalNames(attrs[n]) :: x
    case List(e) => OptionalNames(e)
    case Set(e) => OptionalNames(e)
    case Map(e) => OptionalNames(e)
    case Tuple(es) => set i, x | 0 <= i < |es| && x in OptionalNames(es[i]) :: x
    case _ => {}
  }

  ghost function OptionalPaths(t: Type, prefix: string): set<string> {
    match t
    case Object(attrs, optional) =>
      (set n | n in attrs.Keys * optional :: Extend(prefix, n))
      + set n, x | n in attrs && x in OptionalPaths(attrs[n], Extend(prefix, n)) :: x
    case List(e) => OptionalPaths(e, prefix)
    case Set(e) => OptionalPaths(e, prefix)
    case Map(e) => OptionalPaths(e, prefix)
    case Tuple(es) => set i, x | 0 <= i < |es| && x in OptionalPaths(es[i], prefix) :: x
    case _ => {}
  }

  ghost function DefaultNames(d: Defaults): set<string> {
    d.values + set n, x | n in d.children && x in DefaultNames(d.children[n]) :: x
  }

  ghost function DefaultPaths(d: Defaults, prefix: string): set<string> {
    (set n | n in d.values :: Extend(prefix, n))
    + set n, x | n in d.children && x in DefaultPaths(d.children[n], Extend(prefix, n)) :: x
  }

  ghost function AllNames(t: Type, defaults: Option<Defaults>): set<string> {
    OptionalNames(t) + if defaults.Some? then DefaultNames(defaults.value) else {}
  }

  ghost function AllPaths(t: Type, defaults: Option<Defaults>): set<string> {
    OptionalPaths(t, "") + if defaults.Some? then DefaultPaths(defaults.value, "") else {}
  }

  // ------------------------------------------------------------------ the walkers

  /** A set of strings that the walkers add to. */
  class Collector {
    var out: set<string>

    constructor ()
      ensures out == {}
    {
      out := {};
    }

    method WalkOptionalAttributes(t: Type)
      modifies this
      ensures out == old(out) + OptionalNames(t)
      decreases t, 1
    {
      match t
      case Object(attrs, optional) =>
        var todo := attrs.Keys;
        while todo != {}
          invariant todo <= attrs.Keys
          invariant out == old(out) + (attrs.Keys - todo) * optional
        {
          var name :| name in todo;
          if name in optional {
            out := out + {name};
          }
          todo := todo - {name};
        }
        WalkAttributes(t);
      case List(e) => WalkOptionalAttributes(e);
      case Set(e) => WalkOptionalAttributes(e);
      case Map(e) => WalkOptionalAttributes(e);
      case Tuple(es) => WalkElements(t);
      case _ =>
    }

    method WalkAttributes(t: Type)
      requires t.Object?
      modifies this
      ensures out == old(out) + NamesAmong(t, t.attrs.Keys)
      decreases t, 0
    {
      hide NamesAmong, OptionalNames;
      var todo := t.attrs.Keys;
      NoNames(t);
      while todo != {}
        invariant todo <= t.attrs.Keys
        invariant out == old(out) + NamesAmong(t, t.attrs.Keys - todo)
      {
        var name :| name in todo;
        Visit(t.attrs.Keys, todo, name);
        NextNames(t, t.attrs.Keys - todo, name);
        WalkOptionalAttributes(t.attrs[name]);
        todo := todo - {name};
      }
      assert t.attrs.Keys - todo == t.attrs.Keys;
    }

    method WalkElements(t: Type)
      requires t.Tuple?
      modifies this
      ensures out == old(out) + OptionalNames(t)
      decreases t, 0
    {
      hide OptionalNames;
      ElementNamesAll(t);
      for i := 0 to |t.elems|
        invariant out == old(out) + ElementNames(t, i)
      {
        ElementNamesNext(t, i);
        WalkOptionalAttributes(t.elems[i]);
      }
    }

    method WalkOptionalAttributePaths(t: Type, prefix: string)
      modifies this
      ensures out == old(out) + OptionalPaths(t, prefix)
      decreases t, 1
    {
      match t
      case Object(_, _) => WalkAttributePaths(t, prefix);
      case List(e) => WalkOptionalAttributePaths(e, prefix);
      case Set(e) => WalkOptionalAttributePaths(e, prefix);
      case Map(e) => WalkOptionalAttributePaths(e, prefix);
      case Tuple(_) => WalkElementPaths(t, prefix);
      case _ =>
    }

    method WalkAttributePaths(t: Type, prefix: string)
      requires t.Object?
      modifies this
      ensures out == old(out) + OptionalPaths(t, prefix)
      decreases t, 0
    {
      hide PathsAmong, Extend, OptionalPaths;
      var todo := t.attrs.Keys;
      PathsAmongAll(t, prefix);
      while todo != {}
        invariant todo <= t.attrs.Keys
        invariant out == old(out) + PathsAmong(t, prefix, t.attrs.Keys - todo)
      {
        var name :| name in todo;
        Visit(t.attrs.Keys, todo, name);
        PathsAmongNext(t, prefix, t.attrs.Keys - todo, name);
        var path := Extend(prefix, name);
        if name in t.optional {
          out := out + {path};
        }
        WalkOptionalAttributePaths(t.attrs[name], path);
        todo := todo - {name};
      }
      assert t.attrs.Keys - todo == t.attrs.Keys;
    }

    method WalkElementPaths(t: Type, prefix: string)
      requires t.Tuple?
      modifies this
      ensures out == old(out) + OptionalPaths(t, prefix)
      decreases t, 0
    {
      hide OptionalPaths;
      ElementPathsAll(t, prefix);
      for i := 0 to |t.elems|
        invariant out == old(out) + ElementPaths(t, prefix, i)
      {
        ElementPathsNext(t, prefix, i);
        WalkOptionalAttributePaths(t.elems[i], prefix);
      }
    }

    method CollectDefaultAttributes(d: Defaults)
      modifies this
      ensures out == old(out) + DefaultNames(d)
      decreases d
    {
      hide DefaultNames, DefaultsAmong;
      out := out + d.values;
      ghost var before := out;
      DefaultsAmongAll(d);
      var todo := d.children.Keys;
      while todo != {}
        invariant todo <= d.children.Keys
        invariant out == before + DefaultsAmong(d, d.children.Keys - todo)
      {
        var key :| key in todo;
        Visit(d.children.Keys, todo, key);
        DefaultsAmongNext(d, d.children.Keys - todo, key);
        CollectDefaultAttributes(d.children[key]);
        todo := todo - {key};
      }
      assert d.children.Keys - todo == d.children.Keys;
    }

    method CollectDefaultAttributePaths(d: Defaults, prefix: string)
      modifies this
      ensures out == old(out) + DefaultPaths(d, prefix)
      decreases d
    {
      hide DefaultPaths, DefaultPathsAmong, Extend;
      var todo := d.values;
      while todo != {}
        invariant todo <= d.values
        invariant out == old(out) + set n | n in d.values - todo :: Extend(prefix, n)
      {
        var name :| name in todo;
        out := out + {Extend(prefix, name)};
        todo := todo - {name};
      }
      ghost var before := out;
      DefaultPathsAmongAll(d, prefix);
      var keys := d.children.Keys;
      while keys != {}
        invariant keys <= d.children.Keys
        invariant out == before + DefaultPathsAmong(d, prefix, d.children.Keys - keys)
      {
        var key :| key in keys;
        Visit(d.children.Keys, keys, key);
        DefaultPathsAmongNext(d, prefix, d.children.Keys - keys, key);
        CollectDefaultAttributePaths(d.children[key], Extend(prefix, key));
        keys := keys - {key};
      }
      assert d.children.Keys - keys == d.children.Keys;
    }
  }

  /** The names found inside the attributes `names`. */
  ghost function NamesAmong(t: Type, names: set<string>): set<string>
    requires t.Object? && names <= t.attrs.Keys
  {
    set n, x | n in names && x in OptionalNames(t.attrs[n]) :: x
  }

  lemma {:induction false} NoNames(t: Type)
    requires t.Object?
    ensures NamesAmong(t, t.attrs.Keys - t.attrs.Keys) == {}
  {
  }

  lemma {:induction false} NextNames(t: Type, names: set<string>, name: string)
    requires t.Object? && names <= t.attrs.Keys && name in t.attrs
    ensures NamesAmong(t, names + {name}) == NamesAmong(t, names) + OptionalNames(t.attrs[name])
  {
    hide OptionalNames;
  }

  ghost function ElementNames(t: Type, n: nat): set<string>
    requires t.Tuple? && n <= |t.elems|
  {
    set i, x | 0 <= i < n && x in OptionalNames(t.elems[i]) :: x
  }

  lemma {:induction false} ElementNamesAll(t: Type)
    requires t.Tuple?
    ensures ElementNames(t, 0) == {} && ElementNames(t, |t.elems|) == OptionalNames(t)
  {
  }

  lemma {:induction false} ElementNamesNext(t: Type, n: nat)
    requires t.Tuple? && n < |t.elems|
    ensures ElementNames(t, n + 1) == ElementNames(t, n) + OptionalNames(t.elems[n])
  {
    hide OptionalNames;
  }

  ghost function ElementPaths(t: Type, prefix: string, n: nat): set<string>
    requires t.Tuple? && n <= |t.elems|
  {
    set i, x | 0 <= i < n && x in OptionalPaths(t.elems[i], prefix) :: x
  }

  lemma {:induction false} ElementPathsAll(t: Type, prefix: string)
    requires t.Tuple?
    ensures ElementPaths(t, prefix, 0) == {} && ElementPaths(t, prefix, |t.elems|) == OptionalPaths(t, prefix)
  {
  }

  lemma {:induction false} ElementPathsNext(t: Type, prefix: string, n: nat)
    requires t.Tuple? && n < |t.elems|
    ensures ElementPaths(t, prefix, n + 1) == ElementPaths(t, prefix, n) + OptionalPaths(t.elems[n], prefix)
  {
    hide OptionalPaths;
  }

  ghost function DefaultsAmong(d: Defaults, keys: set<string>): set<string>
    requires keys <= d.children.Keys
  {
    set n, x | n in keys && x in DefaultNames(d.children[n]) :: x
  }

  lemma {:induction false} DefaultsAmongAll(d: Defaults)
    ensures DefaultsAmong(d, d.children.Keys - d.children.Keys) == {}
    ensures d.values + DefaultsAmong(d, d.children.Keys) == DefaultNames(d)
  {
  }

  lemma {:induction false} DefaultsAmongNext(d: Defaults, keys: set<string>, key: string)
    requires keys <= d.children.Keys && key in d.children
    ensures DefaultsAmong(d, keys + {key}) == DefaultsAmong(d, keys) + DefaultNames(d.children[key])
  {
    hide DefaultNames;
  }

  ghost function DefaultPathsAmong(d: Defaults, prefix: string, keys: set<string>): set<string>
    requires keys <= d.children.Keys
  {
    set n, x | n in keys && x in DefaultPaths(d.children[n], Extend(prefix, n)) :: x
  }

  lemma {:induction false} DefaultPathsAmongAll(d: Defaults, prefix: string)
    ensures DefaultPathsAmong(d, prefix, d.children.Keys - d.children.Keys) == {}
    ensures (set n | n in d.values :: Extend(prefix, n)) + DefaultPathsAmong(d, prefix, d.children.Keys) == DefaultPaths(d, prefix)
  {
  }

  lemma {:induction false} DefaultPathsAmongNext(d: Defaults, prefix: string, keys: set<string>, key: string)
    requires keys <= d.children.Keys && key in d.children
    ensures DefaultPathsAmong(d, prefix, keys + {key}) == DefaultPathsAmong(d, prefix, keys) + DefaultPaths(d.children[key], Extend(prefix, key))
  {
    hide DefaultPaths, Extend;
  }

  /** The paths of the attributes among `names`. */
  ghost function PathsAmong(t: Type, prefix: string, names: set<string>): set<string>
    requires t.Object? && names <= t.attrs.Keys
  {
    (set n | n in names * t.optional :: Extend(prefix, n))
    + set n, x | n in names && x in OptionalPaths(t.attrs[n], Extend(prefix, n)) :: x
  }

  lemma {:induction false} PathsAmongAll(t: Type, prefix: string)
    requires t.Object?
    ensures PathsAmong(t, prefix, t.attrs.Keys) == OptionalPaths(t, prefix)
    ensures PathsAmong(t, prefix, t.attrs.Keys - t.attrs.Keys) == {}
  {
  }

  lemma {:induction false} PathsAmongNext(t: Type, prefix: string, names: set<string>, name: string)
    requires t.Object? && names <= t.attrs.Keys && name in t.attrs && name !in names
    ensures PathsAmong(t, prefix, names + {name}) ==
      PathsAmong(t, prefix, names)
      + (if name in t.optional then {Extend(prefix, name)} else {})
      + OptionalPaths(t.attrs[name], Extend(prefix, name))
  {
  }

  method CollectOptionalAttributes(t: Type, defaults: Option<Defaults>) returns (names: set<string>)
    ensures names == AllNames(t, defaults)
  {
    var c := new Collector();
    c.WalkOptionalAttributes(t);
    if defaults.Some? {
      c.CollectDefaultAttributes(defaults.value);
    }
    names := c.out;
  }

  /** The paths in ascending order. */
  method OptionalAttributePaths(t: Type, defaults: Option<Defaults>) returns (paths: seq<string>)
    ensures paths == Arranged(AllPaths(t, defaults))
  {
    hide OptionalPaths, DefaultPaths, Ascending, SortBy;
    var c := new Collector();
    c.WalkOptionalAttributePaths(t, "");
    if defaults.Some? {
      c.CollectDefaultAttributePaths(defaults.value, "");
    }
    var found := map p | p in c.out :: true;
    assert found.Keys == c.out;
    paths := SortedKeys(found);
  }

  // ------------------------------------------------------------------ the two views agree

  /** What follows the last dot. */
  function LastSegment(path: string): (r: string)
    ensures '.' !in r
    decreases |path|
  {
    if '.' !in path then path else LastSegment(path[1..])
  }

  lemma {:induction false} LastOfExtended(prefix: string, name: string)
    requires '.' !in name
    ensures LastSegment(Extend(prefix, name)) == name
    decreases |prefix|
  {
    if prefix != "" {
      var path := prefix + "." + name;
      assert path[|prefix|] == '.';
      if |prefix| == 1 {
        assert path[1..] == "." + name;
        assert ("." + name)[0] == '.';
        assert ("." + name)[1..] == name;
        assert LastSegment("." + name) == LastSegment(name);
      } else {
        assert path[1..] == Extend(prefix[1..], name);
        LastOfExtended(prefix[1..], name);
      }
    }
  }

  ghost function LastSegments(paths: set<string>): set<string> {
    set p | p in paths :: LastSegment(p)
  }

  ghost predicate DotFree(names: set<string>) {
    forall n :: n in names ==> '.' !in n
  }

  lemma {:induction false} TypeViewsAgree(t: Type, prefix: string)
    requires DotFree(OptionalNames(t))
    ensures LastSegments(OptionalPaths(t, prefix)) == OptionalNames(t)
    decreases t
  {
    match t
    case Object(attrs, _) => ObjectViewsAgree(t, prefix);
    case List(e) => TypeViewsAgree(e, prefix);
    case Set(e) => TypeViewsAgree(e, prefix);
    case Map(e) => TypeViewsAgree(e, prefix);
    case Tuple(es) =>
      forall i | 0 <= i < |es| ensures LastSegments(OptionalPaths(es[i], prefix)) == OptionalNames(es[i]) {
        assert OptionalNames(es[i]) <= OptionalNames(t);
        TypeViewsAgree(es[i], prefix);
      }
      forall x | x in OptionalNames(t) ensures x in LastSegments(OptionalPaths(t, prefix)) {
        var i :| 0 <= i < |es| && x in OptionalNames(es[i]);
        var p :| p in OptionalPaths(es[i], prefix) && LastSegment(p) == x;
        assert p in OptionalPaths(t, prefix);
      }
      forall p | p in OptionalPaths(t, prefix) ensures LastSegment(p) in OptionalNames(t) {
        var i :| 0 <= i < |es| && p in OptionalPaths(es[i], prefix);
        assert LastSegment(p) in LastSegments(OptionalPaths(es[i], prefix));
      }
    case _ =>
  }

  lemma {:induction false} ObjectViewsAgree(t: Type, prefix: string)
    requires t.Object? && DotFree(OptionalNames(t))
    ensures LastSegments(OptionalPaths(t, prefix)) == OptionalNames(t)
    decreases t, 0
  {
    hide LastSegment, Extend;
    forall n | n in t.attrs ensures LastSegments(OptionalPaths(t.attrs[n], Extend(prefix, n))) == OptionalNames(t.attrs[n]) {
      assert OptionalNames(t.attrs[n]) <= OptionalNames(t);
      TypeViewsAgree(t.attrs[n], Extend(prefix, n));
    }
    forall n | n in t.attrs.Keys * t.optional ensures LastSegment(Extend(prefix, n)) == n {
      LastOfExtended(prefix, n);
    }
    forall x | x in OptionalNames(t) ensures x in LastSegments(OptionalPaths(t, prefix)) {
      if x in t.attrs.Keys * t.optional {
        assert Extend(prefix, x) in OptionalPaths(t, prefix);
      } else {
        var n :| n in t.attrs && x in OptionalNames(t.attrs[n]);
        var p :| p in OptionalPaths(t.attrs[n], Extend(prefix, n)) && LastSegment(p) == x;
        assert p in OptionalPaths(t, prefix);
      }
    }
    forall p | p in OptionalPaths(t, prefix) ensures LastSegment(p) in OptionalNames(t) {
      if n :| n in t.attrs && p in OptionalPaths(t.attrs[n], Extend(prefix, n)) {
        assert LastSegment(p) in LastSegments(OptionalPaths(t.attrs[n], Extend(prefix, n)));
      }
    }
  }

  lemma {:induction false} DefaultViewsAgree(d: Defaults, prefix: string)
    requires DotFree(DefaultNames(d))
    ensures LastSegments(DefaultPaths(d, prefix)) == DefaultNames(d)
    decreases d
  {
    hide LastSegment, Extend;
    forall n | n in d.children ensures LastSegments(DefaultPaths(d.children[n], Extend(prefix, n))) == DefaultNames(d.children[n]) {
      assert DefaultNames(d.children[n]) <= DefaultNames(d);
      DefaultViewsAgree(d.children[n], Extend(prefix, n));
    }
    forall n | n in d.values ensures LastSegment(Extend(prefix, n)) == n {
      LastOfExtended(prefix, n);
    }
    forall x | x in DefaultNames(d) ensures x in LastSegments(DefaultPaths(d, prefix)) {
      if x in d.values {
        assert Extend(prefix, x) in DefaultPaths(d, prefix);
      } else {
        var n :| n in d.children && x in DefaultNames(d.children[n]);
        var p :| p in DefaultPaths(d.children[n], Extend(prefix, n)) && LastSegment(p) == x;
        assert p in DefaultPaths(d, prefix);
      }
    }
    forall p | p in DefaultPaths(d, prefix) ensures LastSegment(p) in DefaultNames(d) {
      if n :| n in d.children && p in DefaultPaths(d.children[n], Extend(prefix, n)) {
        assert LastSegment(p) in LastSegments(DefaultPaths(d.children[n], Extend(prefix, n)));
      }
    }
  }

  /** The last segments of the paths are the reported names exactly when no reported name contains a dot. */
  lemma {:induction false} ViewsAgreeIff(t: Type, defaults: Option<Defaults>)
    ensures LastSegments(AllPaths(t, defaults)) == AllNames(t, defaults) <==> DotFree(AllNames(t, defaults))
  {
    if DotFree(AllNames(t, defaults)) {
      TypeViewsAgree(t, "");
      if defaults.Some? {
        DefaultViewsAgree(defaults.value, "");
        assert LastSegments(AllPaths(t, defaults)) == LastSegments(OptionalPaths(t, "")) + LastSegments(DefaultPaths(defaults.value, ""));
      }
    }
  }

  // ------------------------------------------------------------------ paths are chains of attributes

  /** Following the attribute names of `chain` through the type ends at an optional attribute. */
  ghost predicate Reaches(t: Type, chain: seq<string>) {
    match t
    case Object(attrs, optional) =>
      && chain != [] && chain[0] in attrs
      && ((|chain| == 1 && chain[0] in optional) || Reaches(attrs[chain[0]], chain[1..]))
    case List(e) => Reaches(e, chain)
    case Set(e) => Reaches(e, chain)
    case Map(e) => Reaches(e, chain)
    case Tuple(es) => exists i :: 0 <= i < |es| && Reaches(es[i], chain)
    case _ => false
  }

  function Follow(prefix: string, chain: seq<string>): string
    decreases |chain|
  {
    if chain == [] then prefix else Follow(Extend(prefix, chain[0]), chain[1..])
  }

  /** The paths of a type are the chains that reach an optional attribute. */
  lemma {:induction false} PathsAreChains(t: Type, prefix: string, p: string)
    ensures p in OptionalPaths(t, prefix) <==> exists chain :: Reaches(t, chain) && Follow(prefix, chain) == p
    decreases t
  {
    match t
    case Object(attrs, _) => ObjectPathsAreChains(t, prefix, p);
    case List(e) => PathsAreChains(e, prefix, p);
    case Set(e) => PathsAreChains(e, prefix, p);
    case Map(e) => PathsAreChains(e, prefix, p);
    case Tuple(es) =>
      forall i | 0 <= i < |es|
        ensures p in OptionalPaths(es[i], prefix) <==> exists chain :: Reaches(es[i], chain) && Follow(prefix, chain) == p
      {
        PathsAreChains(es[i], prefix, p);
      }
      if i, chain :| 0 <= i < |es| && Reaches(es[i], chain) && Follow(prefix, chain) == p {
        assert Reaches(t, chain);
      }
    case _ =>
  }

  lemma {:induction false} ObjectPathsAreChains(t: Type, prefix: string, p: string)
    requires t.Object?
    ensures p in OptionalPaths(t, prefix) <==> exists chain :: Reaches(t, chain) && Follow(prefix, chain) == p
    decreases t, 0
  {
    hide Extend;
    forall n | n in t.attrs
      ensures p in OptionalPaths(t.attrs[n], Extend(prefix, n)) <==>
        exists chain :: Reaches(t.attrs[n], chain) && Follow(Extend(prefix, n), chain) == p
    {
      PathsAreChains(t.attrs[n], Extend(prefix, n), p);
    }
    if p in OptionalPaths(t, prefix) {
      if n :| n in t.attrs.Keys * t.optional && p == Extend(prefix, n) {
        assert [n][1..] == [];
        assert Reaches(t, [n]) && Follow(prefix, [n]) == p;
      } else {
        var n :| n in t.attrs && p in OptionalPaths(t.attrs[n], Extend(prefix, n));
        var rest :| Reaches(t.attrs[n], rest) && Follow(Extend(prefix, n), rest) == p;
        assert ([n] + rest)[1..] == rest;
        assert Reaches(t, [n] + rest) && Follow(prefix, [n] + rest) == p;
      }
    }
    if chain :| Reaches(t, chain) && Follow(prefix, chain) == p {
      var n := chain[0];
      if |chain| == 1 && n in t.optional {
        assert chain[1..] == [];
      } else {
        assert Reaches(t.attrs[n], chain[1..]);
      }
    }
  }

  ghost predicate PlainSegments(chain: seq<string>) {
    forall i :: 0 <= i < |chain| ==> chain[i] != "" && '.' !in chain[i]
  }

  lemma {:induction false} FollowIsJoin(prefix: string, chain: seq<string>)
    requires chain != [] && PlainSegments(chain)
    ensures Follow(prefix, chain) == if prefix == "" then Join(chain, '.') else prefix + "." + Join(chain, '.')
    decreases |chain|
  {
    var rest, first := chain[1..], Extend(prefix, chain[0]);
    if rest != [] {
      assert forall i :: 0 <= i < |rest| ==> rest[i] == chain[i + 1];
      FollowIsJoin(first, rest);
      assert chain[0] + "." + Join(rest, '.') == Join(chain, '.');
      assert prefix + "." + (chain[0] + "." + Join(rest, '.')) == prefix + "." + chain[0] + "." + Join(rest, '.');
    }
  }

  /** With plain names a path can be split back into the chain it came from. */
  lemma {:induction false} PathsSplitIntoChains(chain: seq<string>)
    requires chain != [] && PlainSegments(chain)
    ensures Split(Follow("", chain), '.') == chain
  {
    FollowIsJoin("", chain);
    SplitJoin(chain, '.');
  }
}
