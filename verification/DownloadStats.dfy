/**
  Download statistics: a total, a ranking per resource and a batch query computed from the same
  snapshot of per-version counts, and the exchange sort of the ranking.

  The snapshot is a Go map, so every loop over it may visit the keys in any order; here a loop
  takes an arbitrary remaining key, and the results are proved for every choice.
 */
module DownloadStats {
  import opened Basics
  import opened Strings
  import opened VersionOrder
  import Sorting

  datatype Stats = Stats(count: int, lastAt: string)
  type Snapshot = map<string, Stats>

  /** The parts of a snapshot key `namespace/kind/name/version`. */
  datatype VersionKey = VersionKey(namespace: string, kind: string, name: string, version: string)

  /** At most `n` pieces; the last one keeps any further separators. */
  function SplitN(s: string, sep: char, n: nat): (parts: seq<string>)
    requires n >= 1
    ensures 1 <= |parts| <= n
    decreases |s|
  {
    if n == 1 || s == "" then [s]
    else if s[0] == sep then [""] + SplitN(s[1..], sep, n - 1)
    else
      var rest := SplitN(s[1..], sep, n);
      [[s[0]] + rest[0]] + rest[1..]
  }

  function SplitVersionKey(key: string): Option<VersionKey> {
    var parts := SplitN(key, '/', 4);
    if |parts| == 4 then Some(VersionKey(parts[0], parts[1], parts[2], parts[3])) else None
  }

  function ResourceKey(k: VersionKey): string {
    k.namespace + "/" + k.kind + "/" + k.name
  }

  /** Which resources a caller may see; absent means all. Kinds are compared in lower case. */
  datatype Filter = Filter(namespace: string, visible: Option<set<string>>, lower: Lower)

  predicate Visible(f: Filter, k: VersionKey) {
    f.visible.None? || k.namespace + "/" + f.lower(k.kind) + "/" + k.name in f.visible.value
  }

  predicate Counts(f: Filter, key: string) {
    match SplitVersionKey(key)
    case None => false
    case Some(k) => (f.namespace == "" || f.namespace == k.namespace) && Visible(f, k)
  }

  // ------------------------------------------------------------------ keys as text

  predicate SlashFree(s: string) {
    '/' !in s
  }

  /** The parts of `namespace/kind/name/version`; only the version may contain further slashes. */
  ghost predicate Written(key: string, k: VersionKey) {
    && SlashFree(k.namespace) && SlashFree(k.kind) && SlashFree(k.name)
    && key == k.namespace + "/" + (k.kind + "/" + (k.name + "/" + k.version))
  }

  lemma {:induction false} SplitNext(a: string, rest: string, n: nat)
    requires n >= 2 && SlashFree(a)
    ensures SplitN(a + "/" + rest, '/', n) == [a] + SplitN(rest, '/', n - 1)
    decreases |a|
  {
    var s := a + "/" + rest;
    if a == "" {
      assert s[1..] == rest;
    } else {
      assert s[1..] == a[1..] + "/" + rest && s[0] == a[0];
      SplitNext(a[1..], rest, n);
      assert [a[0]] + a[1..] == a;
    }
  }

  lemma {:induction false} SplitFirst(s: string, n: nat)
    requires n >= 2
    ensures var parts := SplitN(s, '/', n);
      if '/' in s then |parts[0]| < |s| && SlashFree(parts[0]) && s == parts[0] + "/" + s[|parts[0]| + 1..]
        && parts[1..] == SplitN(s[|parts[0]| + 1..], '/', n - 1)
      else parts == [s]
    decreases |s|
  {
    if s != "" && s[0] != '/' {
      SplitFirst(s[1..], n);
      assert s == [s[0]] + s[1..];
    }
  }

  lemma {:induction false} WrittenIsSplit(key: string, k: VersionKey)
    requires Written(key, k)
    ensures SplitVersionKey(key) == Some(k)
  {
    hide SplitN;
    var last := k.name + "/" + k.version;
    var rest := k.kind + "/" + last;
    SplitNext(k.namespace, rest, 4);
    SplitNext(k.kind, last, 3);
    SplitNext(k.name, k.version, 2);
    LastPart(k.version);
    assert key == k.namespace + "/" + rest;
    assert SplitN(key, '/', 4) == [k.namespace] + ([k.kind] + ([k.name] + [k.version]));
  }

  /** The last two parts, if there are two. */
  lemma {:induction false} SplitLast(s: string)
    ensures var parts := SplitN(s, '/', 2);
      |parts| == 2 ==> SlashFree(parts[0]) && s == parts[0] + "/" + parts[1]
  {
    hide SplitN;
    SplitFirst(s, 2);
    if '/' in s {
      LastPart(s[|SplitN(s, '/', 2)[0]| + 1..]);
    }
  }

  lemma {:induction false} SplitLastThree(s: string)
    ensures var parts := SplitN(s, '/', 3);
      |parts| == 3 ==> SlashFree(parts[0]) && SlashFree(parts[1]) && s == parts[0] + "/" + (parts[1] + "/" + parts[2])
  {
    hide SplitN;
    SplitFirst(s, 3);
    var parts := SplitN(s, '/', 3);
    if '/' in s {
      var rest := s[|parts[0]| + 1..];
      SplitLast(rest);
      assert |parts| == 3 ==> parts[1] == parts[1..][0] && parts[2] == parts[1..][1];
    }
  }

  lemma {:induction false} SplitIsWritten(key: string)
    requires SplitVersionKey(key).Some?
    ensures Written(key, SplitVersionKey(key).value)
  {
    hide SplitN;
    SplitFirst(key, 4);
    var parts := SplitN(key, '/', 4);
    var rest := key[|parts[0]| + 1..];
    SplitLastThree(rest);
    assert parts[1] == parts[1..][0] && parts[2] == parts[1..][1] && parts[3] == parts[1..][2];
  }

  /** A key is taken apart at its first three slashes, and not at all when it has fewer. */
  lemma {:induction false} KeyIsWritten(key: string)
    ensures SplitVersionKey(key).Some? ==> Written(key, SplitVersionKey(key).value)
    ensures forall k :: Written(key, k) ==> SplitVersionKey(key) == Some(k)
  {
    hide SplitVersionKey, Written;
    if SplitVersionKey(key).Some? {
      SplitIsWritten(key);
    }
    forall k | Written(key, k) ensures SplitVersionKey(key) == Some(k) {
      WrittenIsSplit(key, k);
    }
  }

  lemma {:induction false} LastPart(s: string)
    ensures SplitN(s, '/', 1) == [s]
  {
  }

  /** A key is counted exactly when it is written as such, in the namespace asked for, of a visible resource. */
  lemma {:induction false} CountsIff(f: Filter, key: string)
    ensures Counts(f, key) <==> exists k ::
      && Written(key, k)
      && (f.namespace == "" || k.namespace == f.namespace)
      && (f.visible.Some? ==> k.namespace + "/" + f.lower(k.kind) + "/" + k.name in f.visible.value)
  {
    hide SplitVersionKey, Written;
    KeyIsWritten(key);
  }

  /** The key is well formed and belongs to the resource `resource`. */
  predicate BelongsTo(key: string, resource: string) {
    SplitVersionKey(key).Some? && ResourceKey(SplitVersionKey(key).value) == resource
  }

  // ------------------------------------------------------------------ sums over a set of keys

  ghost function Sum(stats: Snapshot, keys: set<string>): int
    requires keys <= stats.Keys
  {
    if keys == {} then 0
    else
      var k :| k in keys;
      stats[k].count + Sum(stats, keys - {k})
  }

  /** Any key may be taken out first. */
  lemma {:induction false} SumTakeOut(stats: Snapshot, keys: set<string>, k: string)
    requires keys <= stats.Keys && k in keys
    ensures Sum(stats, keys) == stats[k].count + Sum(stats, keys - {k})
    decreases |keys|
  {
    var first :| first in keys && Sum(stats, keys) == stats[first].count + Sum(stats, keys - {first});
    if first != k {
      SumTakeOut(stats, keys - {first}, k);
      SumTakeOut(stats, keys - {k}, first);
      assert keys - {first} - {k} == keys - {k} - {first};
    }
  }

  lemma {:induction false} SumAdd(stats: Snapshot, keys: set<string>, k: string)
    requires keys <= stats.Keys && k in stats && k !in keys
    ensures Sum(stats, keys + {k}) == Sum(stats, keys) + stats[k].count
  {
    SumTakeOut(stats, keys + {k}, k);
    assert keys + {k} - {k} == keys;
  }

  lemma {:induction false} SumUnion(stats: Snapshot, a: set<string>, b: set<string>)
    requires a + b <= stats.Keys && a !! b
    ensures Sum(stats, a + b) == Sum(stats, a) + Sum(stats, b)
    decreases |b|
  {
    if b == {} {
      assert a + b == a;
    } else {
      var k :| k in b;
      SumUnion(stats, a, b - {k});
      assert a + b == (a + (b - {k})) + {k};
      SumAdd(stats, a + (b - {k}), k);
      SumTakeOut(stats, b, k);
    }
  }

  /** The keys a caller's filter lets through. */
  ghost function Counted(keys: set<string>, f: Filter): (s: set<string>)
    ensures s <= keys
  {
    set k | k in keys && Counts(f, k)
  }

  ghost function OfResource(keys: set<string>, resource: string): (s: set<string>)
    ensures s <= keys
  {
    set k | k in keys && BelongsTo(k, resource)
  }

  lemma {:induction false} CountedAdd(keys: set<string>, key: string, f: Filter)
    ensures Counted(keys + {key}, f) == if Counts(f, key) then Counted(keys, f) + {key} else Counted(keys, f)
  {
    hide Counts;
  }

  lemma {:induction false} OfResourceAdd(keys: set<string>, key: string, resource: string)
    ensures OfResource(keys + {key}, resource)
         == if BelongsTo(key, resource) then OfResource(keys, resource) + {key} else OfResource(keys, resource)
  {
    hide BelongsTo;
  }

  // ------------------------------------------------------------------ the total

  method TotalDownloads(stats: Snapshot, f: Filter) returns (total: int)
    ensures total == Sum(stats, Counted(stats.Keys, f))
  {
    hide Counts, Counted;
    total := 0;
    var todo := stats.Keys;
    NothingCounted(f);
    assert stats.Keys - todo == {};
    while todo != {}
      invariant todo <= stats.Keys
      invariant total == Sum(stats, Counted(stats.Keys - todo, f))
      decreases |todo|
    {
      var key :| key in todo;
      Visit(stats.Keys, todo, key);
      CountedAdd(stats.Keys - todo, key, f);
      if Counts(f, key) {
        SumAdd(stats, Counted(stats.Keys - todo, f), key);
        total := total + stats[key].count;
      }
      todo := todo - {key};
    }
    assert stats.Keys - {} == stats.Keys;
  }

  lemma {:induction false} NothingCounted(f: Filter)
    ensures Counted({}, f) == {}
  {
  }

  // ------------------------------------------------------------------ the batch query

  predicate Later(a: string, b: string) {
    Less(b, a)
  }

  /** The latest time among the keys, the empty time when there is none. */
  ghost predicate IsLatest(stats: Snapshot, keys: set<string>, at: string)
    requires keys <= stats.Keys
  {
    && (at == "" || exists k :: k in keys && stats[k].lastAt == at)
    && forall k :: k in keys ==> !Later(stats[k].lastAt, at)
  }

  lemma {:induction false} LatestSoFar(stats: Snapshot, keys: set<string>, at: string, k: string)
    requires keys <= stats.Keys && k in stats && IsLatest(stats, keys, at)
    ensures IsLatest(stats, keys + {k}, if Later(stats[k].lastAt, at) then stats[k].lastAt else at)
  {
    hide Less;
    var next := stats[k].lastAt;
    if Later(next, at) {
      forall j | j in keys + {k} ensures !Later(stats[j].lastAt, next) {
        LessIrreflexive(next);
        if Later(stats[j].lastAt, next) {
          LessTransitive(at, next, stats[j].lastAt);
        }
      }
    }
  }

  /** What the snapshot says about one resource. */
  ghost predicate Aggregates(stats: Snapshot, keys: set<string>, s: Stats)
    requires keys <= stats.Keys
  {
    s.count == Sum(stats, keys) && IsLatest(stats, keys, s.lastAt)
  }

  method ResourceTotal(stats: Snapshot, resource: string) returns (value: Stats)
    ensures Aggregates(stats, OfResource(stats.Keys, resource), value)
  {
    hide BelongsTo, IsLatest, Less, OfResource;
    value := Stats(0, "");
    assert IsLatest(stats, {}, "") by { NothingIsLatest(stats); }
    var todo := stats.Keys;
    NothingOfResource(resource);
    assert stats.Keys - todo == {};
    while todo != {}
      invariant todo <= stats.Keys
      invariant Aggregates(stats, OfResource(stats.Keys - todo, resource), value)
      decreases |todo|
    {
      var key :| key in todo;
      Visit(stats.Keys, todo, key);
      OfResourceAdd(stats.Keys - todo, key, resource);
      if BelongsTo(key, resource) {
        SumAdd(stats, OfResource(stats.Keys - todo, resource), key);
        LatestSoFar(stats, OfResource(stats.Keys - todo, resource), value.lastAt, key);
        value := Stats(value.count + stats[key].count,
                       if Later(stats[key].lastAt, value.lastAt) then stats[key].lastAt else value.lastAt);
      }
      todo := todo - {key};
    }
    assert stats.Keys - {} == stats.Keys;
  }

  lemma {:induction false} NothingOfResource(resource: string)
    ensures OfResource({}, resource) == {}
  {
  }

  lemma {:induction false} NothingIsLatest(stats: Snapshot)
    ensures IsLatest(stats, {}, "")
  {
  }

  /** The requested resources with a positive count, each with its aggregate. */
  method BatchResourceDownloadStats(stats: Snapshot, keys: seq<string>) returns (result: map<string, Stats>)
    ensures forall key :: key in result <==> key in keys && Sum(stats, OfResource(stats.Keys, key)) > 0
    ensures forall key :: key in result ==> Aggregates(stats, OfResource(stats.Keys, key), result[key])
  {
    hide Aggregates, BelongsTo, Sum;
    result := map[];
    for i := 0 to |keys|
      invariant forall key :: key in result <==> key in keys[..i] && Sum(stats, OfResource(stats.Keys, key)) > 0
      invariant forall key :: key in result ==> Aggregates(stats, OfResource(stats.Keys, key), result[key])
    {
      var value := ResourceTotal(stats, keys[i]);
      assert value.count == Sum(stats, OfResource(stats.Keys, keys[i])) by { CountOf(stats, OfResource(stats.Keys, keys[i]), value); }
      if value.count > 0 {
        result := result[keys[i] := value];
      }
    }
  }

  lemma {:induction false} CountOf(stats: Snapshot, keys: set<string>, s: Stats)
    requires keys <= stats.Keys && Aggregates(stats, keys, s)
    ensures s.count == Sum(stats, keys)
  {
  }

  // ------------------------------------------------------------------ the ranking

  datatype Popular = Popular(namespace: string, kind: string, name: string, version: string, count: int, lastAt: string) {
    function Key(): string {
      namespace + "/" + kind + "/" + name
    }
  }

  /** More downloads first, then by key. */
  predicate Before(a: Popular, b: Popular) {
    a.count > b.count || (a.count == b.count && Less(a.Key(), b.Key()))
  }

  lemma {:induction false} BeforeTransitive(a: Popular, b: Popular, c: Popular)
    requires !Before(b, a) && !Before(c, b)
    ensures !Before(c, a)
  {
    hide Less;
    LessTotal(a.Key(), b.Key());
    if a.count == b.count == c.count && Less(c.Key(), a.Key()) && Less(a.Key(), b.Key()) {
      LessTransitive(c.Key(), a.Key(), b.Key());
    }
  }

  /** No later element belongs before an earlier one. */
  ghost predicate Ranked(ps: seq<Popular>) {
    forall i, j :: 0 <= i < j < |ps| ==> !Before(ps[j], ps[i])
  }

  /** The exchange sort, in place. */
  method SortPopularResources(resources: array<Popular>)
    modifies resources
    ensures multiset(resources[..]) == multiset(old(resources[..]))
    ensures Ranked(resources[..])
  {
    hide Before;
    var n := resources.Length;
    for i := 0 to n
      invariant multiset(resources[..]) == multiset(old(resources[..]))
      invariant Settled(resources[..], i)
    {
      for j := i + 1 to n
        invariant multiset(resources[..]) == multiset(old(resources[..]))
        invariant Settled(resources[..], i) && FirstOf(resources[..], i, j)
      {
        ghost var before := resources[..];
        if Before(resources[j], resources[i]) {
          resources[i], resources[j] := resources[j], resources[i];
          assert resources[..] == Swap(before, i, j);
          SwapKeepsSettled(before, i, j);
        } else {
          ExtendFirst(before, i, j);
        }
      }
      SettleNext(resources[..], i);
    }
  }

  /** The first `i` elements are ranked and none of the rest belongs before any of them. */
  ghost predicate Settled(ps: seq<Popular>, i: nat) {
    i <= |ps| && forall a, b :: 0 <= a < i && a < b < |ps| ==> !Before(ps[b], ps[a])
  }

  /** None of the elements between `i` and `j` belongs before element `i`. */
  ghost predicate FirstOf(ps: seq<Popular>, i: nat, j: nat) {
    i < j <= |ps| && forall b :: i < b < j ==> !Before(ps[b], ps[i])
  }

  function Swap(ps: seq<Popular>, i: nat, j: nat): seq<Popular>
    requires i < j < |ps|
  {
    ps[i := ps[j]][j := ps[i]]
  }

  lemma {:induction false} SwapKeepsSettled(ps: seq<Popular>, i: nat, j: nat)
    requires j < |ps| && Settled(ps, i) && FirstOf(ps, i, j) && Before(ps[j], ps[i])
    ensures Settled(Swap(ps, i, j), i) && FirstOf(Swap(ps, i, j), i, j + 1)
  {
    var qs := Swap(ps, i, j);
    forall b | i < b < j + 1 ensures !Before(qs[b], qs[i]) {
      BeforeAsymmetric(ps[j], ps[i]);
      if b < j {
        BeforeTransitive(ps[j], ps[i], ps[b]);
      }
    }
    hide Before;
  }

  lemma {:induction false} BeforeAsymmetric(a: Popular, b: Popular)
    requires Before(a, b)
    ensures !Before(b, a)
  {
    hide Less;
    if Less(a.Key(), b.Key()) && Less(b.Key(), a.Key()) {
      LessTransitive(a.Key(), b.Key(), a.Key());
      LessIrreflexive(a.Key());
    }
  }

  lemma {:induction false} ExtendFirst(ps: seq<Popular>, i: nat, j: nat)
    requires j < |ps| && FirstOf(ps, i, j) && !Before(ps[j], ps[i])
    ensures FirstOf(ps, i, j + 1)
  {
    hide Before;
  }

  lemma {:induction false} SettleNext(ps: seq<Popular>, i: nat)
    requires i < |ps| && Settled(ps, i) && FirstOf(ps, i, |ps|)
    ensures Settled(ps, i + 1)
  {
    hide Before;
  }

  // ------------------------------------------------------------------ building the ranking

  /** `p` is the entry of the resource `resource` over the snapshot keys `counted`. */
  ghost predicate Entry(stats: Snapshot, counted: set<string>, resource: string, p: Popular)
    requires counted <= stats.Keys
  {
    && p.Key() == resource
    && Aggregates(stats, OfResource(counted, resource), Stats(p.count, p.lastAt))
    && exists key :: key in OfResource(counted, resource) && SplitVersionKey(key).value.version == p.version
  }

  /** Exactly the resources with a counted key, each with its entry. */
  ghost predicate Entries(stats: Snapshot, counted: set<string>, byResource: map<string, Popular>)
    requires counted <= stats.Keys
  {
    && (forall key :: key in counted && SplitVersionKey(key).Some? ==> ResourceKey(SplitVersionKey(key).value) in byResource)
    && (forall r :: r in byResource ==> Entry(stats, counted, r, byResource[r]))
  }

  function AddTo(stats: Stats, k: VersionKey, previous: Popular): Popular {
    Popular(k.namespace, k.kind, k.name, k.version, previous.count + stats.count,
            if Later(stats.lastAt, previous.lastAt) then stats.lastAt else previous.lastAt)
  }

  const NO_ENTRY := Popular("", "", "", "", 0, "")

  lemma {:induction false} AddEntry(stats: Snapshot, counted: set<string>, byResource: map<string, Popular>, key: string)
    requires counted <= stats.Keys && key in stats && key !in counted && SplitVersionKey(key).Some?
    requires Entries(stats, counted, byResource)
    ensures var k := SplitVersionKey(key).value;
            var r := ResourceKey(k);
            Entries(stats, counted + {key},
                    byResource[r := AddTo(stats[key], k, if r in byResource then byResource[r] else NO_ENTRY)])
  {
    hide SplitVersionKey, ResourceKey, IsLatest, Less, Sum;
    var k := SplitVersionKey(key).value;
    var r := ResourceKey(k);
    var previous := if r in byResource then byResource[r] else NO_ENTRY;
    var next := AddTo(stats[key], k, previous);
    var after := byResource[r := next];
    if r !in byResource {
      NoKeysYet(stats, counted, byResource, r);
    }
    assert Aggregates(stats, OfResource(counted, r), Stats(previous.count, previous.lastAt));
    assert Entry(stats, counted + {key}, r, next) by {
      ExtendEntry(stats, counted, key, previous);
    }
    forall q | q in after ensures Entry(stats, counted + {key}, q, after[q]) {
      if q != r {
        OfResourceAdd(counted, key, q);
        assert Entry(stats, counted, q, byResource[q]);
      }
    }
  }

  lemma {:induction false} NoKeysYet(stats: Snapshot, counted: set<string>, byResource: map<string, Popular>, r: string)
    requires counted <= stats.Keys && Entries(stats, counted, byResource) && r !in byResource
    ensures OfResource(counted, r) == {} && Aggregates(stats, OfResource(counted, r), Stats(0, ""))
  {
    hide SplitVersionKey, ResourceKey;
    assert OfResource(counted, r) == {};
    NothingIsLatest(stats);
  }

  lemma {:induction false} ExtendEntry(stats: Snapshot, counted: set<string>, key: string, previous: Popular)
    requires counted <= stats.Keys && key in stats && key !in counted && SplitVersionKey(key).Some?
    requires var r := ResourceKey(SplitVersionKey(key).value);
             Aggregates(stats, OfResource(counted, r), Stats(previous.count, previous.lastAt))
    ensures var k := SplitVersionKey(key).value;
            Entry(stats, counted + {key}, ResourceKey(k), AddTo(stats[key], k, previous))
  {
    hide SplitVersionKey, IsLatest, Less, OfResource;
    var k := SplitVersionKey(key).value;
    var r := ResourceKey(k);
    var mine := OfResource(counted, r);
    OfResourceAdd(counted, key, r);
    SumAdd(stats, mine, key);
    LatestSoFar(stats, mine, previous.lastAt, key);
    assert key in OfResource(counted + {key}, r);
  }

  /** The snapshot grouped by resource. */
  method GroupByResource(stats: Snapshot, f: Filter) returns (byResource: map<string, Popular>)
    ensures Entries(stats, Counted(stats.Keys, f), byResource)
  {
    hide Counts, Counted, Entries, ResourceKey, SplitVersionKey;
    byResource := map[];
    var todo := stats.Keys;
    NothingCounted(f);
    NoEntries(stats);
    assert stats.Keys - todo == {};
    while todo != {}
      invariant todo <= stats.Keys
      invariant Entries(stats, Counted(stats.Keys - todo, f), byResource)
      decreases |todo|
    {
      var key :| key in todo;
      Visit(stats.Keys, todo, key);
      CountedAdd(stats.Keys - todo, key, f);
      if Counts(f, key) {
        CountsIsWellFormed(f, key);
        AddEntry(stats, Counted(stats.Keys - todo, f), byResource, key);
        var k := SplitVersionKey(key).value;
        var r := ResourceKey(k);
        byResource := byResource[r := AddTo(stats[key], k, if r in byResource then byResource[r] else NO_ENTRY)];
      }
      todo := todo - {key};
    }
    assert stats.Keys - {} == stats.Keys;
  }

  lemma {:induction false} CountsIsWellFormed(f: Filter, key: string)
    requires Counts(f, key)
    ensures SplitVersionKey(key).Some?
  {
  }

  lemma {:induction false} NoEntries(stats: Snapshot)
    ensures Entries(stats, {}, map[])
  {
  }

  function KeyOf(p: Popular): string {
    p.Key()
  }

  ghost function KeysIn(ps: seq<Popular>): set<string> {
    set p | p in ps :: p.Key()
  }

  /** `ps` lists every resource with a counted key once, with its entry, best first. */
  ghost predicate IsRanking(stats: Snapshot, f: Filter, ps: seq<Popular>) {
    var counted := Counted(stats.Keys, f);
    && Ranked(ps) && Sorting.DistinctKeys(ps, KeyOf)
    && (forall p :: p in ps ==> Entry(stats, counted, p.Key(), p))
    && (forall key :: key in counted && SplitVersionKey(key).Some? ==> ResourceKey(SplitVersionKey(key).value) in KeysIn(ps))
  }

  /** `ps` lists the entries under `keys`, each once. */
  ghost predicate Lists(ps: seq<Popular>, byResource: map<string, Popular>, keys: set<string>) {
    && Sorting.DistinctKeys(ps, KeyOf) && KeysIn(ps) == keys
    && forall p :: p in ps ==> p.Key() in byResource && byResource[p.Key()] == p
  }

  /** The entries of a map, in an arbitrary order. */
  method ListEntries(byResource: map<string, Popular>) returns (result: seq<Popular>)
    requires forall r :: r in byResource ==> byResource[r].Key() == r
    ensures Lists(result, byResource, byResource.Keys)
  {
    result := [];
    var todo := byResource.Keys;
    assert Lists(result, byResource, byResource.Keys - todo);
    hide *;
    while todo != {}
      invariant todo <= byResource.Keys
      invariant Lists(result, byResource, byResource.Keys - todo)
      decreases |todo|
    {
      var r :| r in todo;
      Visit(byResource.Keys, todo, r);
      ListOneMore(result, byResource, byResource.Keys - todo, r);
      result := result + [byResource[r]];
      todo := todo - {r};
    }
    assert byResource.Keys - {} == byResource.Keys;
  }

  lemma {:induction false} ListOneMore(ps: seq<Popular>, byResource: map<string, Popular>, keys: set<string>, r: string)
    requires Lists(ps, byResource, keys) && r in byResource && r !in keys && byResource[r].Key() == r
    ensures Lists(ps + [byResource[r]], byResource, keys + {r})
  {
    hide Sorting.DistinctKeys, KeysIn;
    KeysInAdd(ps, byResource[r]);
  }

  lemma {:induction false} KeysInAdd(ps: seq<Popular>, p: Popular)
    ensures KeysIn(ps + [p]) == KeysIn(ps) + {p.Key()}
    ensures Sorting.DistinctKeys(ps, KeyOf) && p.Key() !in KeysIn(ps) ==> Sorting.DistinctKeys(ps + [p], KeyOf)
  {
  }

  lemma {:induction false} SameMultisetSameKeys(ps: seq<Popular>, qs: seq<Popular>)
    requires multiset(ps) == multiset(qs)
    ensures forall p :: p in ps <==> p in qs
    ensures KeysIn(ps) == KeysIn(qs)
  {
    forall p ensures p in ps <==> p in qs {
      assert p in ps <==> p in multiset(ps);
      assert p in qs <==> p in multiset(qs);
    }
  }

  lemma {:induction false} DistinctIsCardinality(ps: seq<Popular>)
    ensures |KeysIn(ps)| <= |ps|
    ensures Sorting.DistinctKeys(ps, KeyOf) <==> |KeysIn(ps)| == |ps|
    decreases |ps|
  {
    if ps == [] {
      assert KeysIn(ps) == {};
    } else {
      var front, last := ps[..|ps| - 1], ps[|ps| - 1];
      assert ps == front + [last];
      DistinctIsCardinality(front);
      KeysInAdd(front, last);
      if last.Key() in KeysIn(front) {
        var p :| p in front && p.Key() == last.Key();
        var i :| 0 <= i < |front| && front[i] == p;
        assert ps[i].Key() == ps[|front|].Key();
      } else {
        assert Sorting.DistinctKeys(ps, KeyOf) ==> Sorting.DistinctKeys(front, KeyOf);
      }
    }
  }

  function CutAt(ps: seq<Popular>, limit: nat): seq<Popular> {
    if limit < |ps| then ps[..limit] else ps
  }

  /** What the entries of all resources, listed in any order and then ranked, amount to. */
  lemma {:induction false} RankingOf(stats: Snapshot, f: Filter, byResource: map<string, Popular>, listed: seq<Popular>, ranked: seq<Popular>)
    requires Entries(stats, Counted(stats.Keys, f), byResource)
    requires forall r :: r in byResource ==> byResource[r].Key() == r
    requires Lists(listed, byResource, byResource.Keys)
    requires multiset(listed) == multiset(ranked) && Ranked(ranked)
    ensures IsRanking(stats, f, ranked)
  {
    hide Entry, Before, Counted, ResourceKey, SplitVersionKey, Ranked, Sorting.DistinctKeys;
    SameMultisetSameKeys(listed, ranked);
    SameMultisetSameLength(listed, ranked);
    DistinctIsCardinality(listed);
    DistinctIsCardinality(ranked);
  }

  /** A negative limit is smaller than any length, so the cut is attempted and panics. */
  method MostDownloaded(stats: Snapshot, f: Filter, limit: int) returns (result: Option<seq<Popular>>)
    ensures result.None? <==> limit < 0
    ensures limit >= 0 ==> exists ranking :: IsRanking(stats, f, ranking) && result == Some(CutAt(ranking, limit))
  {
    hide Entry, Entries, Before, Ranked, IsRanking, Lists, Counted, ResourceKey, SplitVersionKey;
    var byResource := GroupByResource(stats, f);
    EntryKeys(stats, Counted(stats.Keys, f), byResource);
    var listed := ListEntries(byResource);
    var resources := new Popular[|listed|](i requires 0 <= i < |listed| => listed[i]);
    assert resources[..] == listed;
    SortPopularResources(resources);
    var ranking := resources[..];
    RankingOf(stats, f, byResource, listed, ranking);
    result := Some(ranking);
    if limit < |ranking| {
      if limit < 0 {
        return None;
      }
      result := Some(ranking[..limit]);
    }
    assert result == Some(CutAt(ranking, limit));
  }

  lemma {:induction false} SameMultisetSameLength(ps: seq<Popular>, qs: seq<Popular>)
    requires multiset(ps) == multiset(qs)
    ensures |ps| == |qs|
  {
    assert |multiset(ps)| == |ps| && |multiset(qs)| == |qs|;
  }

  lemma {:induction false} EntryKeys(stats: Snapshot, counted: set<string>, byResource: map<string, Popular>)
    requires counted <= stats.Keys && Entries(stats, counted, byResource)
    ensures forall r :: r in byResource ==> byResource[r].Key() == r
  {
    hide Aggregates;
  }

  /** In a ranking more downloads come first, and of equally many the earlier name; what a limit leaves out has no more than what it keeps. */
  lemma {:induction false} MostDownloadedFirst(stats: Snapshot, f: Filter, ranking: seq<Popular>, limit: nat)
    requires IsRanking(stats, f, ranking)
    ensures forall i, j :: 0 <= i < j < |ranking| ==>
      || ranking[i].count > ranking[j].count
      || (ranking[i].count == ranking[j].count
          && Less(ranking[i].namespace + "/" + ranking[i].kind + "/" + ranking[i].name, ranking[j].namespace + "/" + ranking[j].kind + "/" + ranking[j].name))
    ensures forall p, q :: p in CutAt(ranking, limit) && q in ranking && q !in CutAt(ranking, limit) ==> p.count >= q.count
  {
    forall i, j | 0 <= i < j < |ranking|
      ensures ranking[i].count > ranking[j].count || (ranking[i].count == ranking[j].count && Less(ranking[i].Key(), ranking[j].Key()))
    {
      assert !Before(ranking[j], ranking[i]) && ranking[i].Key() != ranking[j].Key();
      LessTotal(ranking[i].Key(), ranking[j].Key());
    }
    forall p, q | p in CutAt(ranking, limit) && q in ranking && q !in CutAt(ranking, limit) ensures p.count >= q.count {
      var i :| 0 <= i < |CutAt(ranking, limit)| && CutAt(ranking, limit)[i] == p;
      var j :| 0 <= j < |ranking| && ranking[j] == q;
      assert ranking[i] == p;
      BeyondCut(ranking, limit, q, j);
    }
  }

  lemma {:induction false} BeyondCut(ps: seq<Popular>, limit: nat, q: Popular, j: nat)
    requires j < |ps| && ps[j] == q && q !in CutAt(ps, limit)
    ensures |CutAt(ps, limit)| <= j
  {
    assert forall i :: 0 <= i < |CutAt(ps, limit)| ==> CutAt(ps, limit)[i] == ps[i];
  }

  // ------------------------------------------------------------------ the three computations agree

  ghost function TotalCount(ps: seq<Popular>): int
    decreases |ps|
  {
    if ps == [] then 0 else TotalCount(ps[..|ps| - 1]) + ps[|ps| - 1].count
  }

  /** The counted keys of the resources listed in `ps`. */
  ghost function KeysOfListed(counted: set<string>, ps: seq<Popular>): (s: set<string>)
    ensures s <= counted
  {
    set key | key in counted && SplitVersionKey(key).Some? && ResourceKey(SplitVersionKey(key).value) in KeysIn(ps)
  }

  lemma {:induction false} LastIsNew(front: seq<Popular>, last: Popular)
    requires Sorting.DistinctKeys(front + [last], KeyOf)
    ensures Sorting.DistinctKeys(front, KeyOf) && forall p :: p in front ==> p.Key() != last.Key()
  {
    Sorting.DistinctNext(front, last, KeyOf);
    forall p | p in front ensures p.Key() != last.Key() {
      assert KeyOf(p) != KeyOf(last);
    }
  }

  lemma {:induction false} KeysOfOneMore(counted: set<string>, front: seq<Popular>, last: Popular)
    requires forall p :: p in front ==> p.Key() != last.Key()
    ensures KeysOfListed(counted, front + [last]) == KeysOfListed(counted, front) + OfResource(counted, last.Key())
    ensures KeysOfListed(counted, front) !! OfResource(counted, last.Key())
  {
    hide SplitVersionKey, ResourceKey;
    KeysInAdd(front, last);
  }

  lemma {:induction false} ListedCountsAddUp(stats: Snapshot, counted: set<string>, ps: seq<Popular>)
    requires counted <= stats.Keys && Sorting.DistinctKeys(ps, KeyOf)
    requires forall p :: p in ps ==> p.count == Sum(stats, OfResource(counted, p.Key()))
    ensures TotalCount(ps) == Sum(stats, KeysOfListed(counted, ps))
    decreases |ps|
  {
    hide SplitVersionKey, ResourceKey, Sorting.DistinctKeys, OfResource;
    if ps == [] {
      assert KeysOfListed(counted, ps) == {};
    } else {
      hide KeysOfListed;
      var front, last := ps[..|ps| - 1], ps[|ps| - 1];
      assert ps == front + [last];
      LastIsNew(front, last);
      ListedCountsAddUp(stats, counted, front);
      KeysOfOneMore(counted, front, last);
      SumUnion(stats, KeysOfListed(counted, front), OfResource(counted, last.Key()));
    }
  }

  /** Under one filter, the counts of the whole ranking sum to the total, whatever order the map was visited in. */
  lemma {:induction false} RankingConservesTotal(stats: Snapshot, f: Filter, ranking: seq<Popular>)
    requires IsRanking(stats, f, ranking)
    ensures TotalCount(ranking) == Sum(stats, Counted(stats.Keys, f))
  {
    hide ResourceKey, SplitVersionKey, Before, IsLatest, Sum;
    var counted := Counted(stats.Keys, f);
    forall p | p in ranking ensures p.count == Sum(stats, OfResource(counted, p.Key())) {
      assert Entry(stats, counted, p.Key(), p);
    }
    ListedCountsAddUp(stats, counted, ranking);
    assert KeysOfListed(counted, ranking) == counted by {
      forall key | key in counted ensures key in KeysOfListed(counted, ranking) {
        CountsIsWellFormed(f, key);
      }
    }
  }

  /** Without a filter, the ranking and the batch query give a resource the same count and time. */
  lemma {:induction false} RankingAgreesWithBatch(stats: Snapshot, f: Filter, ranking: seq<Popular>, batch: map<string, Stats>, p: Popular)
    requires f.namespace == "" && f.visible.None?
    requires IsRanking(stats, f, ranking) && p in ranking
    requires forall key :: key in batch ==> Aggregates(stats, OfResource(stats.Keys, key), batch[key])
    requires p.Key() in batch
    ensures batch[p.Key()] == Stats(p.count, p.lastAt)
  {
    hide ResourceKey, SplitVersionKey, Before, IsLatest, Sum;
    var counted, r := Counted(stats.Keys, f), p.Key();
    assert Entry(stats, counted, r, p);
    assert OfResource(counted, r) == OfResource(stats.Keys, r);
    LatestIsUnique(stats, OfResource(counted, r), p.lastAt, batch[r].lastAt);
  }

  /** Without a filter, the ranking and the batch query have a positive count for the same resources. */
  lemma {:induction false} PositiveInBatch(stats: Snapshot, f: Filter, ranking: seq<Popular>, p: Popular)
    requires f.namespace == "" && f.visible.None?
    requires IsRanking(stats, f, ranking) && p in ranking
    ensures p.count > 0 <==> Sum(stats, OfResource(stats.Keys, p.Key())) > 0
  {
    hide ResourceKey, SplitVersionKey, Before, IsLatest, Sum;
    var counted, r := Counted(stats.Keys, f), p.Key();
    assert Entry(stats, counted, r, p);
    assert OfResource(counted, r) == OfResource(stats.Keys, r);
  }

  lemma {:induction false} LatestIsUnique(stats: Snapshot, keys: set<string>, a: string, b: string)
    requires keys <= stats.Keys && IsLatest(stats, keys, a) && IsLatest(stats, keys, b)
    ensures a == b
  {
    LessTotal(a, b);
  }

  /** What a ranking shows of an entry, apart from the version, which depends on map order. */
  datatype Row = Row(key: string, count: int, lastAt: string)

  ghost function Rows(ps: seq<Popular>): seq<Row> {
    seq(|ps|, i requires 0 <= i < |ps| => Row(ps[i].Key(), ps[i].count, ps[i].lastAt))
  }

  lemma {:induction false} SortedRowsUnique(ps: seq<Popular>, qs: seq<Popular>)
    requires Ranked(ps) && Ranked(qs) && Sorting.DistinctKeys(ps, KeyOf) && Sorting.DistinctKeys(qs, KeyOf)
    requires Elements(Rows(ps)) == Elements(Rows(qs))
    ensures Rows(ps) == Rows(qs)
    decreases |ps|
  {
    hide Before, Ranked, Sorting.DistinctKeys;
    if ps == [] {
      if qs != [] { FirstRow(qs); }
    } else {
      FirstRow(ps);
      assert qs != [];
      FirstRow(qs);
      var i :| 0 <= i < |qs| && Rows(qs)[i] == Rows(ps)[0];
      var j :| 0 <= j < |ps| && Rows(ps)[j] == Rows(qs)[0];
      FirstRowsEqual(ps, qs, i, j);
      RestOfRows(ps);
      RestOfRows(qs);
      SortedRowsUnique(ps[1..], qs[1..]);
      assert Rows(ps) == [Rows(ps)[0]] + Rows(ps[1..]);
      assert Rows(qs) == [Rows(qs)[0]] + Rows(qs[1..]);
    }
  }

  lemma {:induction false} FirstRow(ps: seq<Popular>)
    requires ps != []
    ensures Rows(ps)[0] in Elements(Rows(ps))
  {
  }

  lemma {:induction false} FirstRowsEqual(ps: seq<Popular>, qs: seq<Popular>, i: nat, j: nat)
    requires ps != [] && qs != [] && Ranked(ps) && Ranked(qs) && Sorting.DistinctKeys(ps, KeyOf)
    requires i < |qs| && Rows(qs)[i] == Rows(ps)[0] && j < |ps| && Rows(ps)[j] == Rows(qs)[0]
    ensures Rows(ps)[0] == Rows(qs)[0]
  {
    if j > 0 && i > 0 {
      assert !Before(ps[j], ps[0]) && !Before(qs[i], qs[0]);
      LessTotal(ps[0].Key(), ps[j].Key());
    }
  }

  lemma {:induction false} RestOfRows(ps: seq<Popular>)
    requires ps != [] && Ranked(ps) && Sorting.DistinctKeys(ps, KeyOf)
    ensures Ranked(ps[1..]) && Sorting.DistinctKeys(ps[1..], KeyOf)
    ensures Elements(Rows(ps[1..])) == Elements(Rows(ps)) - {Rows(ps)[0]}
  {
    hide Before;
    var rows := Rows(ps);
    assert Rows(ps[1..]) == rows[1..];
    forall row ensures row in Elements(rows[1..]) <==> row in Elements(rows) - {rows[0]} {
      if row in rows[1..] {
        var i :| 0 <= i < |rows[1..]| && rows[1..][i] == row;
        assert rows[i + 1] == row && ps[i + 1].Key() != ps[0].Key();
      }
    }
  }

  /** The ranking does not depend on the order in which the maps were visited. */
  lemma {:induction false} RankingUnique(stats: Snapshot, f: Filter, ps: seq<Popular>, qs: seq<Popular>)
    requires IsRanking(stats, f, ps) && IsRanking(stats, f, qs)
    ensures Rows(ps) == Rows(qs)
  {
    RowsInclude(stats, f, ps, qs);
    RowsInclude(stats, f, qs, ps);
    SortedRowsUnique(ps, qs);
  }

  lemma {:induction false} RowsInclude(stats: Snapshot, f: Filter, ps: seq<Popular>, qs: seq<Popular>)
    requires IsRanking(stats, f, ps) && IsRanking(stats, f, qs)
    ensures Elements(Rows(ps)) <= Elements(Rows(qs))
  {
    hide Before, IsLatest, Sum, SplitVersionKey, ResourceKey;
    var counted := Counted(stats.Keys, f);
    forall row | row in Elements(Rows(ps)) ensures row in Elements(Rows(qs)) {
      var i :| 0 <= i < |ps| && Rows(ps)[i] == row;
      var p := ps[i];
      assert Entry(stats, counted, p.Key(), p);
      var key :| key in OfResource(counted, p.Key());
      assert p.Key() in KeysIn(qs);
      var q :| q in qs && q.Key() == p.Key();
      assert Entry(stats, counted, q.Key(), q);
      LatestIsUnique(stats, OfResource(counted, p.Key()), p.lastAt, q.lastAt);
      var j :| 0 <= j < |qs| && qs[j] == q;
      assert Rows(qs)[j] == row;
    }
  }
}
