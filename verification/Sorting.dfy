/** Sorting by a string key, as the sort library does it: the result is ordered and has the same elements. */
module Sorting {
  import opened Basics
  import opened Strings

  function Insert<T>(x: T, key: T -> string, xs: seq<T>): (r: seq<T>)
    ensures |r| == |xs| + 1 && multiset(r) == multiset(xs) + multiset{x}
  {
    if xs == [] then [x]
    else if Less(key(xs[0]), key(x)) then
      assert multiset(xs) == multiset{xs[0]} + multiset(xs[1..]) by { assert xs == [xs[0]] + xs[1..]; }
      [xs[0]] + Insert(x, key, xs[1..])
    else [x] + xs
  }

  function SortBy<T>(xs: seq<T>, key: T -> string): (r: seq<T>)
    ensures |r| == |xs| && multiset(r) == multiset(xs)
  {
    if xs == [] then []
    else
      assert multiset(xs) == multiset{xs[0]} + multiset(xs[1..]) by { assert xs == [xs[0]] + xs[1..]; }
      Insert(xs[0], key, SortBy(xs[1..], key))
  }

  ghost predicate Ordered<T>(xs: seq<T>, key: T -> string) {
    forall i, j :: 0 <= i < j < |xs| ==> !Less(key(xs[j]), key(xs[i]))
  }

  /** Strictly increasing keys; in particular no key occurs twice. */
  ghost predicate Ascending<T>(xs: seq<T>, key: T -> string) {
    forall i, j :: 0 <= i < j < |xs| ==> Less(key(xs[i]), key(xs[j]))
  }

  predicate DistinctKeys<T>(xs: seq<T>, key: T -> string) {
    forall i, j :: 0 <= i < j < |xs| ==> key(xs[i]) != key(xs[j])
  }

  lemma {:induction false} InsertMembers<T>(x: T, key: T -> string, xs: seq<T>, y: T)
    ensures y in Insert(x, key, xs) <==> y == x || y in xs
  {
    var r := Insert(x, key, xs);
    assert y in r <==> y in multiset(r);
    assert y in xs <==> y in multiset(xs);
  }

  /** The key `least` is not after any key of `xs`. */
  ghost predicate NoneBefore<T>(least: string, xs: seq<T>, key: T -> string) {
    forall y :: y in xs ==> !Less(key(y), least)
  }

  lemma {:induction false} OrderedFirst<T>(first: T, xs: seq<T>, key: T -> string)
    requires Ordered(xs, key) && NoneBefore(key(first), xs, key)
    ensures Ordered([first] + xs, key)
  {
  }

  lemma {:induction false} OrderedParts<T>(xs: seq<T>, key: T -> string)
    requires Ordered(xs, key) && xs != []
    ensures Ordered(xs[1..], key) && NoneBefore(key(xs[0]), xs[1..], key) && NoneBefore(key(xs[0]), xs, key)
  {
    hide Less;
    forall y | y in xs ensures !Less(key(y), key(xs[0])) {
      var k :| 0 <= k < |xs| && xs[k] == y;
      LessIrreflexive(key(xs[0]));
    }
    forall y | y in xs[1..] ensures y in xs {}
  }

  lemma {:induction false} InsertOrdered<T>(x: T, key: T -> string, xs: seq<T>)
    requires Ordered(xs, key)
    ensures Ordered(Insert(x, key, xs), key)
    decreases |xs|
  {
    hide Less, Ordered;
    if xs == [] {
      OrderedSingle(x, key);
    } else {
      OrderedParts(xs, key);
      if Less(key(xs[0]), key(x)) {
        InsertOrdered(x, key, xs[1..]);
        LessAsymmetric(key(xs[0]), key(x));
        var rest := Insert(x, key, xs[1..]);
        forall y | y in rest ensures !Less(key(y), key(xs[0])) {
          InsertMembers(x, key, xs[1..], y);
        }
        OrderedFirst(xs[0], rest, key);
      } else {
        forall y | y in xs ensures !Less(key(y), key(x)) {
          NotLessTransitive(key(x), key(xs[0]), key(y));
        }
        OrderedFirst(x, xs, key);
      }
    }
  }

  lemma {:induction false} OrderedSingle<T>(x: T, key: T -> string)
    ensures Ordered([x], key)
  {
  }

  lemma {:induction false} LessAsymmetric(a: string, b: string)
    requires Less(a, b)
    ensures !Less(b, a)
  {
    LessIrreflexive(a);
    if Less(b, a) { LessTransitive(a, b, a); }
  }

  lemma {:induction false} NotLessTransitive(a: string, b: string, c: string)
    requires !Less(b, a) && !Less(c, b)
    ensures !Less(c, a)
  {
    LessTotal(a, b);
    if Less(c, a) && Less(a, b) { LessTransitive(c, a, b); }
  }

  lemma {:induction false} SortByOrdered<T>(xs: seq<T>, key: T -> string)
    ensures Ordered(SortBy(xs, key), key)
    ensures forall y :: y in SortBy(xs, key) <==> y in xs
    decreases |xs|
  {
    if xs != [] {
      SortByOrdered(xs[1..], key);
      InsertOrdered(xs[0], key, SortBy(xs[1..], key));
    }
    SameElements(SortBy(xs, key), xs);
  }

  lemma {:induction false} SameElements<T>(xs: seq<T>, ys: seq<T>)
    requires multiset(xs) == multiset(ys)
    ensures forall y :: y in xs <==> y in ys
  {
    forall y ensures y in xs <==> y in ys {
      assert y in xs <==> y in multiset(xs);
      assert y in ys <==> y in multiset(ys);
    }
  }

  /** Distinct keys stay distinct under every reordering. */
  lemma {:induction false} DistinctUnderReordering<T>(xs: seq<T>, ys: seq<T>, key: T -> string)
    requires multiset(xs) == multiset(ys) && DistinctKeys(xs, key)
    ensures DistinctKeys(ys, key)
  {
    SameElements(xs, ys);
    forall i, j | 0 <= i < j < |ys| ensures key(ys[i]) != key(ys[j]) {
      if key(ys[i]) == key(ys[j]) {
        assert ys[i] in xs && ys[j] in xs;
        var a, b :| 0 <= a < |xs| && 0 <= b < |xs| && xs[a] == ys[i] && xs[b] == ys[j];
        assert a == b;
        TwiceInMultiset(ys, i, j);
        OnceInMultiset(xs, a, key);
        assert false;
      }
    }
  }

  lemma {:induction false} TwiceInMultiset<T>(ys: seq<T>, i: nat, j: nat)
    requires i < j < |ys| && ys[i] == ys[j]
    ensures multiset(ys)[ys[i]] >= 2
  {
    assert ys == ys[..j] + ys[j..];
    assert ys[..j][i] == ys[i] && ys[j..][0] == ys[j];
    assert ys[i] in ys[..j] && ys[j] in ys[j..];
    assert multiset(ys) == multiset(ys[..j]) + multiset(ys[j..]);
  }

  lemma {:induction false} OnceInMultiset<T>(xs: seq<T>, a: nat, key: T -> string)
    requires a < |xs| && DistinctKeys(xs, key)
    ensures multiset(xs)[xs[a]] == 1
  {
    assert xs == xs[..a] + [xs[a]] + xs[a + 1..];
    forall k | 0 <= k < |xs| && k != a ensures xs[k] != xs[a] {
      assert key(xs[k]) != key(xs[a]);
    }
    assert multiset(xs) == multiset(xs[..a]) + multiset{xs[a]} + multiset(xs[a + 1..]);
  }

  /** Sorting elements with distinct keys gives strictly ascending keys. */
  lemma {:induction false} SortByAscending<T>(xs: seq<T>, key: T -> string)
    requires DistinctKeys(xs, key)
    ensures Ascending(SortBy(xs, key), key)
  {
    hide Less;
    var r := SortBy(xs, key);
    SortByOrdered(xs, key);
    DistinctUnderReordering(xs, r, key);
    forall i, j | 0 <= i < j < |r| ensures Less(key(r[i]), key(r[j])) {
      LessTotal(key(r[i]), key(r[j]));
    }
  }

  /** An ascending arrangement is determined by its elements. */
  lemma {:induction false} AscendingUnique<T>(xs: seq<T>, ys: seq<T>, key: T -> string)
    requires Ascending(xs, key) && Ascending(ys, key) && multiset(xs) == multiset(ys)
    ensures xs == ys
    decreases |xs|
  {
    hide Less;
    if xs == [] {
      assert |multiset(ys)| == 0;
    } else {
      SameElements(xs, ys);
      assert xs[0] in ys && ys != [];
      FirstIsLeast(xs, ys, key);
      DropFirst(xs, ys);
      AscendingUnique(xs[1..], ys[1..], key);
      assert xs == [xs[0]] + xs[1..] && ys == [ys[0]] + ys[1..];
    }
  }

  lemma {:induction false} DropFirst<T>(xs: seq<T>, ys: seq<T>)
    requires multiset(xs) == multiset(ys) && xs != [] && ys != [] && xs[0] == ys[0]
    ensures multiset(xs[1..]) == multiset(ys[1..])
  {
    assert xs == [xs[0]] + xs[1..] && ys == [ys[0]] + ys[1..];
    assert multiset(xs) == multiset{xs[0]} + multiset(xs[1..]);
    assert multiset(ys) == multiset{ys[0]} + multiset(ys[1..]);
    assert multiset(xs) - multiset{xs[0]} == multiset(xs[1..]);
    assert multiset(ys) - multiset{ys[0]} == multiset(ys[1..]);
  }

  lemma {:induction false} FirstIsLeast<T>(xs: seq<T>, ys: seq<T>, key: T -> string)
    requires Ascending(xs, key) && Ascending(ys, key) && xs != [] && ys != []
    requires xs[0] in ys && ys[0] in xs
    ensures xs[0] == ys[0]
  {
    hide Less;
    var i :| 0 <= i < |ys| && ys[i] == xs[0];
    var j :| 0 <= j < |xs| && xs[j] == ys[0];
    if i > 0 && j > 0 {
      LessAsymmetric(key(ys[0]), key(ys[i]));
    }
  }

  /** Sorting forgets the original order when keys are distinct. */
  lemma {:induction false} SortByCanonical<T>(xs: seq<T>, ys: seq<T>, key: T -> string)
    requires multiset(xs) == multiset(ys) && DistinctKeys(xs, key)
    ensures SortBy(xs, key) == SortBy(ys, key)
  {
    DistinctUnderReordering(xs, ys, key);
    SortByAscending(xs, key);
    SortByAscending(ys, key);
    AscendingUnique(SortBy(xs, key), SortBy(ys, key), key);
  }

  function Itself(s: string): string { s }

  /** The elements of a set of names in ascending order. */
  ghost function Arranged(names: set<string>): (r: seq<string>)
    ensures Ascending(r, Itself) && |r| == |names|
    ensures forall n :: n in r <==> n in names
  {
    ListingExists(names);
    var r :| ListsOnce(r, names);
    SortByAscending(r, Itself);
    SortByOrdered(r, Itself);
    SortBy(r, Itself)
  }

  ghost predicate ListsOnce(r: seq<string>, names: set<string>) {
    DistinctKeys(r, Itself) && |r| == |names| && forall n :: n in r <==> n in names
  }

  lemma {:induction false} ListingExists(names: set<string>)
    ensures exists r :: ListsOnce(r, names)
    decreases |names|
  {
    if names == {} {
      assert ListsOnce([], names);
    } else {
      var n :| n in names;
      ListingExists(names - {n});
      var rest :| ListsOnce(rest, names - {n});
      assert ListsOnce([n] + rest, names);
    }
  }

  /** Ascending names are determined by which names they are. */
  lemma {:induction false} ArrangedUnique(r: seq<string>, names: set<string>)
    requires Ascending(r, Itself) && forall n :: n in r <==> n in names
    ensures r == Arranged(names)
  {
    hide Less;
    var s := Arranged(names);
    AscendingOnce(r);
    AscendingOnce(s);
    forall x ensures multiset(r)[x] == multiset(s)[x] {
      assert x in multiset(r) <==> x in r;
      assert x in multiset(s) <==> x in s;
    }
    AscendingUnique(r, s, Itself);
  }

  lemma {:induction false} AscendingOnce(r: seq<string>)
    requires Ascending(r, Itself)
    ensures DistinctKeys(r, Itself) && forall x :: x in r ==> multiset(r)[x] == 1
  {
    hide Less;
    forall i, j | 0 <= i < j < |r| ensures r[i] != r[j] {
      LessIrreflexive(r[i]);
    }
    forall x | x in r ensures multiset(r)[x] == 1 {
      var i :| 0 <= i < |r| && r[i] == x;
      OnceInMultiset(r, i, Itself);
    }
  }

  /** Sorting names, as often as they occur once, arranges the set of them. */
  lemma {:induction false} SortArranges(xs: seq<string>, names: set<string>)
    requires DistinctKeys(xs, Itself) && forall n :: n in xs <==> n in names
    ensures SortBy(xs, Itself) == Arranged(names)
  {
    SortByAscending(xs, Itself);
    SortByOrdered(xs, Itself);
    ArrangedUnique(SortBy(xs, Itself), names);
  }

  lemma {:induction false} ListOneMore(keys: seq<string>, names: set<string>, key: string)
    requires ListsOnce(keys, names) && key !in names
    ensures ListsOnce(keys + [key], names + {key})
  {
  }

  /** The keys of a map in ascending order, whatever order the map is iterated in. */
  method SortedKeys<V>(values: map<string, V>) returns (keys: seq<string>)
    ensures keys == Arranged(values.Keys)
    ensures forall n :: n in keys <==> n in values
  {
    keys := [];
    var todo := values.Keys;
    while todo != {}
      invariant todo <= values.Keys
      invariant ListsOnce(keys, values.Keys - todo)
    {
      hide ListsOnce;
      var key :| key in todo;
      Visit(values.Keys, todo, key);
      ListOneMore(keys, values.Keys - todo, key);
      keys := keys + [key];
      todo := todo - {key};
    }
    assert values.Keys - todo == values.Keys;
    SortArranges(keys, values.Keys);
    keys := SortBy(keys, Itself);
  }

  /** `least` is the key of some element, and no element has an earlier one. */
  ghost predicate LeastKeyIs<T>(xs: seq<T>, key: T -> string, least: string) {
    (exists x :: x in xs && key(x) == least) && forall x :: x in xs ==> !Less(key(x), least)
  }

  lemma {:induction false} InSorted<T>(xs: seq<T>, key: T -> string, x: T)
    ensures x in SortBy(xs, key) <==> x in xs
  {
    assert x in SortBy(xs, key) <==> x in multiset(SortBy(xs, key));
    assert x in xs <==> x in multiset(xs);
  }

  /** What sorting puts first. */
  lemma {:induction false} SortedFirstIff<T>(xs: seq<T>, key: T -> string, least: string)
    ensures var sorted := SortBy(xs, key); (sorted != [] && key(sorted[0]) == least) <==> LeastKeyIs(xs, key, least)
  {
    hide SortBy, Less;
    var sorted := SortBy(xs, key);
    SameElements(sorted, xs);
    SortByOrdered(xs, key);
    LessIrreflexive(least);
    if sorted != [] {
      var first := sorted[0];
      InSorted(xs, key, first);
      assert first in xs;
      forall x | x in xs ensures !Less(key(x), key(first)) {
        assert x in sorted;
        var i :| 0 <= i < |sorted| && sorted[i] == x;
        LessIrreflexive(key(first));
      }
      if LeastKeyIs(xs, key, least) {
        var x :| x in xs && key(x) == least;
        assert !Less(key(x), key(first));
        assert !Less(key(first), least);
        LessTotal(key(first), least);
      }
    }
  }

  // ------------------------------------------------------------------ tables

  /** Elements by key; a later element with a key replaces an earlier one. */
  function Table<T>(xs: seq<T>, key: T -> string): (table: map<string, T>)
    ensures forall n :: n in table ==> table[n] in xs && key(table[n]) == n
    ensures forall x :: x in xs ==> key(x) in table
    decreases |xs|
  {
    if xs == [] then map[]
    else
      var last := xs[|xs| - 1];
      assert xs == xs[..|xs| - 1] + [last];
      Table(xs[..|xs| - 1], key)[key(last) := last]
  }

  method TableOf<T>(xs: seq<T>, key: T -> string) returns (table: map<string, T>)
    ensures table == Table(xs, key)
  {
    hide Table;
    table := map[];
    TableOfNone(xs, key);
    for i := 0 to |xs|
      invariant table == Table(xs[..i], key)
    {
      TableNext(xs[..i], xs[i], key);
      assert xs[..i + 1] == xs[..i] + [xs[i]];
      table := table[key(xs[i]) := xs[i]];
    }
    assert xs[..|xs|] == xs;
  }

  lemma {:induction false} TableOfNone<T>(xs: seq<T>, key: T -> string)
    ensures Table(xs[..0], key) == map[]
  {
  }

  lemma {:induction false} TableNext<T>(xs: seq<T>, x: T, key: T -> string)
    ensures Table(xs + [x], key) == Table(xs, key)[key(x) := x]
  {
    assert (xs + [x])[..|xs|] == xs;
  }

  lemma {:induction false} DistinctNext<T>(xs: seq<T>, x: T, key: T -> string)
    ensures DistinctKeys(xs + [x], key) <==> DistinctKeys(xs, key) && forall y :: y in xs ==> key(y) != key(x)
  {
    var all := xs + [x];
    if DistinctKeys(all, key) {
      forall i, j | 0 <= i < j < |xs| ensures key(xs[i]) != key(xs[j]) {
        assert all[i] == xs[i] && all[j] == xs[j];
      }
      forall y | y in xs ensures key(y) != key(x) {
        var i :| 0 <= i < |xs| && xs[i] == y;
        assert all[i] == y && all[|xs|] == x;
      }
    }
  }

  /** With distinct keys every element is found under its key. */
  lemma {:induction false} TableFinds<T>(xs: seq<T>, x: T, key: T -> string)
    requires DistinctKeys(xs, key) && x in xs
    ensures Table(xs, key)[key(x)] == x
  {
    var y := Table(xs, key)[key(x)];
    var i, j :| 0 <= i < |xs| && 0 <= j < |xs| && xs[i] == x && xs[j] == y;
  }

  /** With distinct keys the order of the elements does not matter. */
  lemma {:induction false} TableReordered<T>(xs: seq<T>, ys: seq<T>, key: T -> string)
    requires multiset(xs) == multiset(ys) && DistinctKeys(xs, key)
    ensures Table(xs, key) == Table(ys, key)
  {
    SameElements(xs, ys);
    DistinctUnderReordering(xs, ys, key);
    var s, t := Table(xs, key), Table(ys, key);
    assert s.Keys == t.Keys;
    forall n | n in s ensures s[n] == t[n] {
      TableFinds(ys, s[n], key);
    }
  }

  // ------------------------------------------------------------------ ordering by two keys

  /** A key that orders pairs by their first and then by their second part. */
  function PairKey(first: string, second: string): string {
    if first == "" then ['\0'] + second else ['\U{1}', first[0]] + PairKey(first[1..], second)
  }

  lemma {:induction false} PairKeyOrder(a: string, b: string, c: string, d: string)
    ensures Less(PairKey(a, b), PairKey(c, d)) <==> Less(a, c) || (a == c && Less(b, d))
    ensures PairKey(a, b) == PairKey(c, d) <==> a == c && b == d
    decreases |a|
  {
    if a != "" && c != "" {
      PairKeyOrder(a[1..], b, c[1..], d);
      assert a == [a[0]] + a[1..] && c == [c[0]] + c[1..];
      PairKeyStep(a, b);
      PairKeyStep(c, d);
    } else {
      PairKeyStep(a, b);
      PairKeyStep(c, d);
    }
  }

  lemma {:induction false} PairKeyStep(a: string, b: string)
    ensures var k := PairKey(a, b);
      if a == "" then k[0] == '\0' && k[1..] == b
      else |k| > 2 && k[0] == '\U{1}' && k[1..][0] == a[0] && k[1..][1..] == PairKey(a[1..], b)
  {
  }

  /** Elements with distinct keys are sorted the same however they were listed. */
  lemma {:induction false} SortForgetsOrder<T>(xs: seq<T>, ys: seq<T>, key: T -> string)
    requires DistinctKeys(xs, key) && DistinctKeys(ys, key) && forall x :: x in xs <==> x in ys
    ensures multiset(xs) == multiset(ys) && SortBy(xs, key) == SortBy(ys, key)
  {
    forall x ensures multiset(xs)[x] == multiset(ys)[x] {
      assert x in xs <==> x in multiset(xs);
      assert x in ys <==> x in multiset(ys);
      if x in xs {
        OccursOnce(xs, x, key);
        OccursOnce(ys, x, key);
      }
    }
    SortByCanonical(xs, ys, key);
  }

  lemma {:induction false} OccursOnce<T>(xs: seq<T>, x: T, key: T -> string)
    requires DistinctKeys(xs, key) && x in xs
    ensures multiset(xs)[x] == 1
  {
    var i :| 0 <= i < |xs| && xs[i] == x;
    OnceInMultiset(xs, i, key);
  }
}
