/**
  The Depot and Provider control loops over a shared object store. The Depot keeps writing the full
  list of matching versions; the Provider trims that list to its history limit and keeps one Version
  object per version, operating system and architecture. Every call to the API server can fail, and
  before every call others may have written: the Depot to the Provider, the Version controller to file
  names.
 */
module Reconcilers {
  import opened Basics
  import opened Strings
  import opened Sorting

  // ------------------------------------------------------------------ versions

  /** Semantic versions: the canonical form, and a key whose order is the precedence order of versions. */
  datatype Semver = Semver(canonical: string -> string, precedence: string -> string)

  datatype Config = Config(name: Option<string>, operatingSystems: seq<string>, architectures: seq<string>, limit: Option<int>)

  function WithPrefix(version: string): string
    requires version != ""
  {
    if version[0] == 'v' then version else "v" + version
  }

  /** `Panic` stands for an index out of range, which ends the reconcile. */
  datatype Retention = KeepAll | Keep(versions: seq<string>) | Panic

  function Canonicals(lib: Semver, versions: seq<string>): (r: seq<string>)
    requires forall v :: v in versions ==> v != ""
    ensures |r| == |versions|
  {
    seq(|versions|, i requires 0 <= i < |versions| => assert versions[i] in versions; lib.canonical(WithPrefix(versions[i])))
  }

  function Sorted(lib: Semver, versions: seq<string>): (r: seq<string>)
    requires forall v :: v in versions ==> v != ""
    ensures |r| == |versions|
  {
    SortBy(Canonicals(lib, versions), lib.precedence)
  }

  function Retained(lib: Semver, config: Config, versions: seq<string>): Retention {
    if config.limit.None? || config.limit.value <= 0 then KeepAll
    else if "" in versions || config.limit.value > |versions| then Panic
    else Keep(Sorted(lib, versions)[|versions| - config.limit.value..])
  }

  method VersionsToKeep(lib: Semver, config: Config, versions: seq<string>) returns (r: Retention)
    ensures r == Retained(lib, config, versions)
  {
    if config.limit.None? || config.limit.value <= 0 {
      return KeepAll;
    }
    var canonical: seq<string> := [];
    for i := 0 to |versions|
      invariant "" !in versions[..i]
      invariant |canonical| == i && forall j :: 0 <= j < i ==> canonical[j] == lib.canonical(WithPrefix(versions[j]))
    {
      if versions[i] == "" {
        return Panic;
      }
      canonical := canonical + [lib.canonical(WithPrefix(versions[i]))];
    }
    assert versions[..|versions|] == versions;
    assert canonical == Canonicals(lib, versions);
    canonical := SortBy(canonical, lib.precedence);
    if config.limit.value > |canonical| {
      return Panic;
    }
    return Keep(canonical[|canonical| - config.limit.value..]);
  }

  /** The versions the Provider works with: the trimmed list when that is shorter, otherwise its own list. */
  function Working(lib: Semver, config: Config, versions: seq<string>): Option<seq<string>> {
    match Retained(lib, config, versions)
    case Panic => None
    case KeepAll => Some(versions)
    case Keep(kept) => Some(if |kept| < |versions| then kept else versions)
  }

  /** Every version has a canonical form. */
  predicate AllValid(lib: Semver, versions: seq<string>) {
    forall v :: v in versions ==> v != "" && lib.canonical(WithPrefix(v)) != ""
  }

  /** Whatever list a Provider holds, the Depot's or that list trimmed, it works with the same versions or with none. */
  lemma {:induction false} TrimmedOnce(lib: Semver, config: Config, full: seq<string>)
    ensures var kept := Working(lib, config, full);
      kept.Some? ==> Working(lib, config, kept.value).None? || Working(lib, config, kept.value) == kept
  {
  }

  /** With valid versions a trimmed list can be worked with again. */
  lemma {:induction false} TrimmingIsStable(lib: Semver, config: Config, full: seq<string>)
    requires AllValid(lib, full) && Working(lib, config, full).Some?
    ensures Working(lib, config, Working(lib, config, full).value) == Working(lib, config, full)
  {
    var kept := Working(lib, config, full).value;
    if kept != full {
      SameElements(Sorted(lib, full), Canonicals(lib, full));
      forall i | 0 <= i < |full| ensures Canonicals(lib, full)[i] != "" {
        assert full[i] in full;
      }
      forall v | v in kept ensures v != "" {
        assert v in Sorted(lib, full);
      }
    }
  }

  /** `versions` is divided into the newest of them and others, none of which is newer than one of those. */
  ghost predicate NewestOf(lib: Semver, versions: seq<string>, newest: seq<string>) {
    exists others: seq<string> ::
      && multiset(others) + multiset(newest) == multiset(versions)
      && forall d, k :: d in others && k in newest ==> !Less(lib.precedence(k), lib.precedence(d))
  }

  /**
    What the history limit promises. Without a limit the list stays as it is; a limit that exceeds the list,
    or an empty version, ends the reconcile; and otherwise exactly as many versions are kept as the limit
    says, in canonical form when that is fewer than there are, and none that is left out is newer.
   */
  ghost predicate Retains(lib: Semver, config: Config, full: seq<string>, kept: Option<seq<string>>) {
    if config.limit.None? || config.limit.value <= 0 then kept == Some(full)
    else if config.limit.value > |full| || "" in full then kept == None
    else if config.limit.value == |full| then kept == Some(full)
    else kept.Some? && |kept.value| == config.limit.value && NewestOf(lib, Canonicals(lib, full), kept.value)
  }

  /** The working list is what the history limit promises, for every list of versions. */
  lemma {:induction false} NewestAreKept(lib: Semver, config: Config, full: seq<string>)
    ensures Retains(lib, config, full, Working(lib, config, full))
  {
    if config.limit.Some? && 0 < config.limit.value < |full| && "" !in full {
      var kept, sorted, cut := Working(lib, config, full).value, Sorted(lib, full), |full| - config.limit.value;
      var dropped := sorted[..cut];
      SortByOrdered(Canonicals(lib, full), lib.precedence);
      assert sorted == dropped + kept;
      forall d, k | d in dropped && k in kept ensures !Less(lib.precedence(k), lib.precedence(d)) {
        var i, j :| 0 <= i < |dropped| && 0 <= j < |kept| && dropped[i] == d && kept[j] == k;
        assert sorted[i] == d && sorted[cut + j] == k;
      }
      assert multiset(dropped) + multiset(kept) == multiset(Canonicals(lib, full));
    }
  }

  // ------------------------------------------------------------------ the versions a Depot selects

  /** `normal` is the normal form of a version that parses; `satisfies` is the constraint. */
  datatype Upstream = Upstream(normal: string -> Option<string>, satisfies: string -> bool)

  predicate Selects(up: Upstream, v: string) {
    up.normal(v).Some? && up.satisfies(v)
  }

  /** The normal forms of the versions that satisfy the constraint, each where it occurs first. */
  function Matched(up: Upstream, all: seq<string>): (r: seq<string>)
    ensures Distinct(r)
    ensures forall s :: s in r <==> exists v :: v in all && Selects(up, v) && up.normal(v) == Some(s)
    decreases |all|
  {
    if all == [] then []
    else
      var before, last := Matched(up, all[..|all| - 1]), all[|all| - 1];
      assert all == all[..|all| - 1] + [last];
      if Selects(up, last) && up.normal(last).value !in before then before + [up.normal(last).value] else before
  }

  method MatchVersions(up: Upstream, all: seq<string>) returns (matched: seq<string>)
    ensures matched == Matched(up, all)
  {
    matched := [];
    for i := 0 to |all|
      invariant matched == Matched(up, all[..i])
    {
      assert all[..i + 1][..i] == all[..i];
      var parsed := up.normal(all[i]);
      if parsed.None? {
        continue;
      }
      if up.satisfies(all[i]) && parsed.value !in matched {
        matched := matched + [parsed.value];
      }
    }
    assert all[..|all|] == all;
  }

  // ------------------------------------------------------------------ what should be stored

  datatype Cell = Cell(version: string, os: string, arch: string)

  function Line(version: string, os: string, architectures: seq<string>): seq<Cell> {
    seq(|architectures|, i requires 0 <= i < |architectures| => Cell(version, os, architectures[i]))
  }

  function Row(version: string, systems: seq<string>, architectures: seq<string>): seq<Cell> {
    if systems == [] then []
    else Row(version, systems[..|systems| - 1], architectures) + Line(version, systems[|systems| - 1], architectures)
  }

  /** One cell per version, operating system and architecture. */
  function Grid(versions: seq<string>, systems: seq<string>, architectures: seq<string>): seq<Cell> {
    if versions == [] then []
    else Grid(versions[..|versions| - 1], systems, architectures) + Row(SanitizeVersion(versions[|versions| - 1]), systems, architectures)
  }

  lemma {:induction false} InRow(version: string, systems: seq<string>, architectures: seq<string>, c: Cell)
    ensures c in Row(version, systems, architectures) <==> c.version == version && c.os in systems && c.arch in architectures
    decreases |systems|
  {
    if systems != [] {
      var rest, last := systems[..|systems| - 1], systems[|systems| - 1];
      assert systems == rest + [last];
      InRow(version, rest, architectures, c);
      var line := Line(version, last, architectures);
      if c.version == version && c.os == last && c.arch in architectures {
        var i :| 0 <= i < |architectures| && architectures[i] == c.arch;
        assert line[i] == c;
      }
    }
  }

  lemma {:induction false} InGrid(versions: seq<string>, systems: seq<string>, architectures: seq<string>, c: Cell)
    ensures c in Grid(versions, systems, architectures) <==>
      c.os in systems && c.arch in architectures && exists v :: v in versions && SanitizeVersion(v) == c.version
    decreases |versions|
  {
    hide SanitizeVersion, Row;
    if versions != [] {
      var rest, last := versions[..|versions| - 1], versions[|versions| - 1];
      assert versions == rest + [last];
      InGrid(rest, systems, architectures, c);
      InRow(SanitizeVersion(last), systems, architectures, c);
    }
  }

  /** Resource names are lower case, with `.`, `_` and `/` written as `-`. */
  function NameChar(c: char): char {
    if 'A' <= c <= 'Z' then c + 'a' - 'A'
    else if c == '.' || c == '_' || c == '/' then '-'
    else c
  }

  function ResourceName(providerName: string, c: Cell): string {
    var raw := providerName + "-" + c.version + "-" + c.os + "-" + c.arch;
    seq(|raw|, i requires 0 <= i < |raw| => NameChar(raw[i]))
  }

  function NameText(s: string): (r: string)
    ensures |r| == |s| && forall i :: 0 <= i < |s| ==> r[i] == NameChar(s[i])
  {
    seq(|s|, i requires 0 <= i < |s| => NameChar(s[i]))
  }

  predicate DashFree(s: string) {
    '-' !in s
  }

  lemma {:induction false} DashInside(a: string, x: string, b: string, y: string)
    requires a + "-" + x == b + "-" + y && |a| < |b|
    ensures !DashFree(x)
  {
    var s := a + "-" + x;
    assert s[|b|] == '-';
    assert x[|b| - |a| - 1] == s[|b|];
  }

  /** Text with a dash after which there is none is taken apart in one way. */
  lemma {:induction false} LastDash(a: string, x: string, b: string, y: string)
    requires a + "-" + x == b + "-" + y && DashFree(x) && DashFree(y)
    ensures a == b && x == y
  {
    hide DashFree;
    if |a| < |b| {
      DashInside(a, x, b, y);
    } else if |b| < |a| {
      DashInside(b, y, a, x);
    } else {
      var s := a + "-" + x;
      assert a == s[..|a|] && b == s[..|b|] && x == s[|a| + 1..] && y == s[|b| + 1..];
    }
  }

  lemma {:induction false} NameParts(providerName: string, c: Cell)
    ensures ResourceName(providerName, c)
         == NameText(providerName) + "-" + NameText(c.version) + "-" + NameText(c.os) + "-" + NameText(c.arch)
  {
  }

  /** Where operating systems and architectures have no dashes, Versions share a name exactly when all three parts are spelled alike. */
  lemma {:induction false} NamesCollideIff(providerName: string, c: Cell, d: Cell)
    requires DashFree(NameText(c.os)) && DashFree(NameText(d.os)) && DashFree(NameText(c.arch)) && DashFree(NameText(d.arch))
    ensures ResourceName(providerName, c) == ResourceName(providerName, d) <==>
      NameText(c.version) == NameText(d.version) && NameText(c.os) == NameText(d.os) && NameText(c.arch) == NameText(d.arch)
  {
    hide ResourceName, DashFree, NameText;
    NameParts(providerName, c);
    NameParts(providerName, d);
    if ResourceName(providerName, c) == ResourceName(providerName, d) {
      var p := NameText(providerName) + "-";
      var v, w := p + NameText(c.version), p + NameText(d.version);
      LastDash(v + "-" + NameText(c.os), NameText(c.arch), w + "-" + NameText(d.os), NameText(d.arch));
      LastDash(v, NameText(c.os), w, NameText(d.os));
      assert v[|p|..] == NameText(c.version) && w[|p|..] == NameText(d.version);
    }
  }

  datatype Key = Key(namespace: string, name: string)

  datatype VersionSpec = VersionSpec(providerLabel: string, namespaceLabel: string, os: string, arch: string, version: string)

  datatype VersionObject = VersionObject(spec: VersionSpec, fileName: string, resourceVersion: nat)

  /** A Provider resource and the list of versions that its Depot selects for it. */
  datatype Settings = Settings(lib: Semver, name: string, namespace: string, config: Config, full: seq<string>)

  function ProviderName(s: Settings): string {
    if s.config.name.Some? then s.config.name.value else s.name
  }

  function CellName(s: Settings, c: Cell): string {
    ResourceName(ProviderName(s), c)
  }

  function CellKey(s: Settings, c: Cell): Key {
    Key(s.namespace, CellName(s, c))
  }

  function CellSpec(s: Settings, c: Cell): VersionSpec {
    VersionSpec(ProviderName(s), s.namespace, c.os, c.arch, c.version)
  }

  /** The cells of the versions to keep; none when the versions cannot be trimmed. */
  ghost function Wanted(s: Settings): seq<Cell> {
    match Working(s.lib, s.config, s.full)
    case None => []
    case Some(kept) => Grid(kept, s.config.operatingSystems, s.config.architectures)
  }

  ghost function Names(s: Settings, cells: seq<Cell>): set<string> {
    set c | c in cells :: CellName(s, c)
  }

  type Store = map<Key, VersionSpec>

  /** Writing cells one after the other. */
  ghost function Written(s: Settings, store: Store, cells: seq<Cell>): Store
    decreases |cells|
  {
    if cells == [] then store
    else Written(s, store, cells[..|cells| - 1])[CellKey(s, cells[|cells| - 1]) := CellSpec(s, cells[|cells| - 1])]
  }

  /** What the removal of stale versions selects: labels decide, and names are compared without their namespace. */
  predicate Selected(s: Settings, spec: VersionSpec) {
    spec.providerLabel == s.name && spec.namespaceLabel == s.namespace
  }

  ghost predicate Stale(s: Settings, wanted: set<string>, k: Key, spec: VersionSpec) {
    Selected(s, spec) && k.name !in wanted
  }

  ghost function Cleaned(s: Settings, wanted: set<string>, store: Store): Store {
    map k | k in store && !Stale(s, wanted, k, store[k]) :: store[k]
  }

  /** The store after a complete reconcile of the Provider. */
  ghost function Reconciled(s: Settings, store: Store): Store
  {
    Cleaned(s, Names(s, Wanted(s)), Written(s, store, Wanted(s)))
  }

  /** `now` is a store that an interrupted reconcile can leave: wanted objects may have been written, stale ones deleted. */
  ghost predicate Between(s: Settings, before: Store, now: Store)
  {
    var wanted := Names(s, Wanted(s));
    && (forall k :: k in now && !(k.namespace == s.namespace && k.name in wanted) ==> k in before && now[k] == before[k])
    && (forall k :: k in before && k !in now ==> Stale(s, wanted, k, before[k]))
  }

  lemma {:induction false} WrittenElsewhere(s: Settings, store: Store, cells: seq<Cell>, k: Key)
    requires !(k.namespace == s.namespace && k.name in Names(s, cells))
    ensures k in Written(s, store, cells) <==> k in store
    ensures k in store ==> Written(s, store, cells)[k] == store[k]
    decreases |cells|
  {
    hide CellName;
    if cells != [] {
      var rest, last := cells[..|cells| - 1], cells[|cells| - 1];
      assert cells == rest + [last];
      WrittenElsewhere(s, store, rest, k);
    }
  }

  /** What is stored under a name that was written does not depend on what was there before. */
  lemma {:induction false} WrittenHere(s: Settings, store: Store, cells: seq<Cell>, k: Key)
    requires k.namespace == s.namespace && k.name in Names(s, cells)
    ensures k in Written(s, store, cells)
    ensures exists c :: c in cells && k == CellKey(s, c) && Written(s, store, cells)[k] == CellSpec(s, c)
    ensures forall other: Store :: k in Written(s, other, cells) && Written(s, other, cells)[k] == Written(s, store, cells)[k]
    decreases |cells|
  {
    hide CellName, CellSpec;
    var rest, last := cells[..|cells| - 1], cells[|cells| - 1];
    assert cells == rest + [last];
    if k != CellKey(s, last) {
      WrittenHere(s, store, rest, k);
      var c :| c in rest && k == CellKey(s, c) && Written(s, store, rest)[k] == CellSpec(s, c);
      assert c in cells;
      forall other: Store ensures k in Written(s, other, cells) && Written(s, other, cells)[k] == Written(s, store, cells)[k] {
        assert k in Written(s, other, rest) && Written(s, other, rest)[k] == Written(s, store, rest)[k];
      }
    }
  }

  // ------------------------------------------------------------------ every run converges

  /** An interrupted reconcile does no harm: a later complete one ends where it would have ended. */
  lemma {:induction false} InterruptionIsHarmless(s: Settings, before: Store, now: Store)
    requires Between(s, before, now)
    ensures Reconciled(s, now) == Reconciled(s, before)
  {
    hide Written, Grid, Working, CellName;
    var cells := Wanted(s);
    var wanted := Names(s, cells);
    var a, b := Written(s, now, cells), Written(s, before, cells);
    forall k ensures k in Cleaned(s, wanted, a) <==> k in Cleaned(s, wanted, b)
      ensures k in Cleaned(s, wanted, a) ==> a[k] == b[k]
    {
      if k.namespace == s.namespace && k.name in wanted {
        WrittenHere(s, now, cells, k);
        assert k in b && b[k] == a[k];
      } else {
        WrittenElsewhere(s, now, cells, k);
        WrittenElsewhere(s, before, cells, k);
      }
    }
  }

  /** Reconciling again changes nothing; in particular it creates and deletes nothing. */
  lemma {:induction false} ReconcileIsIdempotent(s: Settings, store: Store)
    ensures Reconciled(s, Reconciled(s, store)) == Reconciled(s, store)
  {
    CompleteIsBetween(s, store);
    InterruptionIsHarmless(s, store, Reconciled(s, store));
  }

  lemma {:induction false} CompleteIsBetween(s: Settings, store: Store)
    ensures Between(s, store, Reconciled(s, store))
  {
    hide Written, Grid, Working, CellName;
    var cells := Wanted(s);
    var wanted, written := Names(s, cells), Written(s, store, cells);
    forall k | k in Reconciled(s, store) && !(k.namespace == s.namespace && k.name in wanted)
      ensures k in store && Reconciled(s, store)[k] == store[k]
    {
      WrittenElsewhere(s, store, cells, k);
    }
    forall k | k in store && k !in Reconciled(s, store) ensures Stale(s, wanted, k, store[k]) {
      if k.namespace == s.namespace && k.name in wanted {
        WrittenHere(s, store, cells, k);
      } else {
        WrittenElsewhere(s, store, cells, k);
      }
    }
  }

  /** Versions labelled for this Provider. */
  ghost predicate Labelled(s: Settings, spec: VersionSpec) {
    spec.providerLabel == ProviderName(s) && spec.namespaceLabel == s.namespace
  }

  /** Labels tell the namespace an object is in. */
  ghost predicate LabelsAgree(s: Settings, store: Store) {
    forall k :: k in store && Labelled(s, store[k]) ==> k.namespace == s.namespace
  }

  /** A kept version for one of the operating systems and architectures. */
  ghost predicate OfKept(s: Settings, kept: Option<seq<string>>, c: Cell) {
    && kept.Some? && c.os in s.config.operatingSystems && c.arch in s.config.architectures
    && exists v :: v in kept.value && SanitizeVersion(v) == c.version
  }

  /** The fields and labels of the Version for a cell. */
  ghost predicate HoldsCell(s: Settings, c: Cell, spec: VersionSpec) {
    && spec.version == c.version && spec.os == c.os && spec.arch == c.arch
    && spec.providerLabel == ProviderName(s) && spec.namespaceLabel == s.namespace
  }

  /** Different wanted cells have different names. */
  ghost predicate NoCollisions(s: Settings) {
    forall kept, c, d :: Retains(s.lib, s.config, s.full, kept) && OfKept(s, kept, c) && OfKept(s, kept, d) && CellName(s, c) == CellName(s, d) ==> c == d
  }

  /**
    After a complete reconcile the Versions labelled for the Provider are exactly one for every version that
    the history limit keeps, every operating system and every architecture, with these in its fields.
   */
  lemma {:induction false} ExactlyTheWantedVersions(s: Settings, store: Store) returns (kept: Option<seq<string>>)
    requires ProviderName(s) == s.name && LabelsAgree(s, store) && NoCollisions(s)
    ensures Retains(s.lib, s.config, s.full, kept)
    ensures forall k :: (k in Reconciled(s, store) && Labelled(s, Reconciled(s, store)[k])) <==> exists c :: OfKept(s, kept, c) && CellKey(s, c) == k
    ensures forall c :: OfKept(s, kept, c) ==> CellKey(s, c) in Reconciled(s, store) && HoldsCell(s, c, Reconciled(s, store)[CellKey(s, c)])
  {
    hide Written, Working, CellName, Retains, Reconciled, OfKept;
    kept := Working(s.lib, s.config, s.full);
    NewestAreKept(s.lib, s.config, s.full);
    forall c ensures OfKept(s, kept, c) <==> c in Wanted(s) {
      WantedIff(s, c);
    }
    forall k
      ensures (k in Reconciled(s, store) && Labelled(s, Reconciled(s, store)[k])) <==> exists c :: OfKept(s, kept, c) && CellKey(s, c) == k
    {
      StoredCell(s, store, k);
    }
    forall c | OfKept(s, kept, c) ensures CellKey(s, c) in Reconciled(s, store) && HoldsCell(s, c, Reconciled(s, store)[CellKey(s, c)]) {
      StoredCell(s, store, CellKey(s, c));
    }
  }

  lemma {:induction false} WantedIff(s: Settings, c: Cell)
    ensures OfKept(s, Working(s.lib, s.config, s.full), c) <==> c in Wanted(s)
  {
    hide Working, Grid, SanitizeVersion;
    var kept := Working(s.lib, s.config, s.full);
    if kept.Some? {
      InGrid(kept.value, s.config.operatingSystems, s.config.architectures, c);
    }
  }

  lemma {:induction false} StoredCell(s: Settings, store: Store, k: Key)
    requires ProviderName(s) == s.name && LabelsAgree(s, store) && NoCollisions(s)
    ensures (k in Reconciled(s, store) && Labelled(s, Reconciled(s, store)[k])) <==> exists c :: c in Wanted(s) && CellKey(s, c) == k
    ensures forall c :: c in Wanted(s) && CellKey(s, c) == k ==> k in Reconciled(s, store) && HoldsCell(s, c, Reconciled(s, store)[k])
  {
    hide Written, Wanted, CellName, NoCollisions;
    var cells := Wanted(s);
    var wanted := Names(s, cells);
    if k.namespace == s.namespace && k.name in wanted {
      WrittenHere(s, store, cells, k);
      var c :| c in cells && k == CellKey(s, c) && Written(s, store, cells)[k] == CellSpec(s, c);
      assert k in Reconciled(s, store);
      forall d | d in cells && CellKey(s, d) == k ensures d == c {
        OneCell(s, c, d);
      }
    } else {
      WrittenElsewhere(s, store, cells, k);
    }
  }

  lemma {:induction false} OneCell(s: Settings, c: Cell, d: Cell)
    requires NoCollisions(s) && c in Wanted(s) && d in Wanted(s) && CellName(s, c) == CellName(s, d)
    ensures c == d
  {
    hide Wanted, CellName, Retains, Working, OfKept;
    NewestAreKept(s.lib, s.config, s.full);
    WantedIff(s, c);
    WantedIff(s, d);
  }

  /** The same Provider when its Depot selected another list of versions. */
  ghost predicate SameProvider(s: Settings, earlier: Settings) {
    earlier == s.(full := earlier.full)
  }

  /** Some version kept earlier is no longer wanted under any name. */
  ghost predicate Drops(s: Settings, earlier: Settings) {
    exists c :: c in Wanted(earlier) && CellName(s, c) !in Names(s, Wanted(s))
  }

  /** Every labelled Version is one of those wanted. */
  ghost predicate NothingStale(s: Settings, store: Store) {
    forall k :: k in store && Labelled(s, store[k]) ==> k.name in Names(s, Wanted(s))
  }

  /**
    Stale Versions are removed exactly when the configured name is the name of the resource: then from
    every store, and otherwise not even those that a reconcile of the same Provider wrote earlier.
   */
  lemma {:induction false} StaleAreRemovedIff(s: Settings, earlier: Settings)
    requires SameProvider(s, earlier) && Drops(s, earlier)
    ensures ProviderName(s) == s.name <==> NothingStale(s, Reconciled(s, Reconciled(earlier, map[])))
    ensures ProviderName(s) == s.name ==> forall store :: NothingStale(s, Reconciled(s, store))
  {
    hide Written, Wanted, CellName;
    if ProviderName(s) != s.name {
      var c :| c in Wanted(earlier) && CellName(s, c) !in Names(s, Wanted(s));
      EarlierVersionStays(s, earlier, c);
    }
  }

  lemma {:induction false} EarlierVersionStays(s: Settings, earlier: Settings, c: Cell)
    requires SameProvider(s, earlier) && c in Wanted(earlier)
    requires CellName(s, c) !in Names(s, Wanted(s)) && ProviderName(s) != s.name
    ensures CellKey(s, c) in Reconciled(s, Reconciled(earlier, map[]))
    ensures Labelled(s, Reconciled(s, Reconciled(earlier, map[]))[CellKey(s, c)])
  {
    hide Written, Wanted;
    var k, before := CellKey(s, c), Reconciled(earlier, map[]);
    SameNames(s, earlier, c);
    WrittenHere(earlier, map[], Wanted(earlier), k);
    assert k in before && Labelled(s, before[k]);
    WrittenElsewhere(s, before, Wanted(s), k);
  }

  lemma {:induction false} SameNames(s: Settings, earlier: Settings, c: Cell)
    requires SameProvider(s, earlier) && c in Wanted(earlier)
    ensures CellKey(earlier, c) == CellKey(s, c) && CellName(s, c) in Names(earlier, Wanted(earlier))
  {
  }

  /** A Provider resource `p` configured as `q`, which kept 1.0.0 and 2.0.0, and then 1.0.0 only. */
  ghost function Misnamed(full: seq<string>): Settings {
    Settings(Semver(v => v, v => v), "p", "ns", Config(Some("q"), ["linux"], ["amd64"], None), full)
  }

  lemma {:induction false} MisnamedKeepsStale()
    ensures var s, earlier := Misnamed(["1.0.0"]), Misnamed(["1.0.0", "2.0.0"]);
      SameProvider(s, earlier) && Drops(s, earlier) && !NothingStale(s, Reconciled(s, Reconciled(earlier, map[])))
  {
    hide Reconciled, ResourceName, Row, Line;
    var s, earlier := Misnamed(["1.0.0"]), Misnamed(["1.0.0", "2.0.0"]);
    var one, two := Cell("1.0.0", "linux", "amd64"), Cell("2.0.0", "linux", "amd64");
    Plain("1.0.0");
    Plain("2.0.0");
    assert two in Wanted(earlier) by { InGrid(["1.0.0", "2.0.0"], ["linux"], ["amd64"], two); }
    forall c | c in Wanted(s) ensures c == one {
      InGrid(["1.0.0"], ["linux"], ["amd64"], c);
    }
    NamesDiffer(one, two);
    StaleAreRemovedIff(s, earlier);
  }

  lemma {:induction false} Plain(version: string)
    requires version in ["1.0.0", "2.0.0"]
    ensures SanitizeVersion(version) == version
  {
  }

  lemma {:induction false} NamesDiffer(one: Cell, two: Cell)
    requires one.version == "1.0.0" && two.version == "2.0.0"
    ensures ResourceName("q", one) != ResourceName("q", two)
  {
    var a, b := ResourceName("q", one), ResourceName("q", two);
    assert a[2] == '1' && b[2] == '2';
  }

  // ------------------------------------------------------------------ runs

  /** What can happen to the store: the Depot does not touch Versions, a Provider reconcile completes or stops anywhere. */
  datatype Event = DepotWrites | ProviderCompletes | ProviderStops(now: Store)

  ghost predicate Possible(s: Settings, store: Store, e: Event)
  {
    e.ProviderStops? ==> Between(s, store, e.now)
  }

  ghost function After(s: Settings, store: Store, e: Event): Store
  {
    match e
    case DepotWrites => store
    case ProviderCompletes => Reconciled(s, store)
    case ProviderStops(now) => now
  }

  ghost predicate PossibleRun(s: Settings, store: Store, events: seq<Event>)
    decreases |events|
  {
    events == [] || (Possible(s, store, events[0]) && PossibleRun(s, After(s, store, events[0]), events[1..]))
  }

  ghost function AfterRun(s: Settings, store: Store, events: seq<Event>): Store
    decreases |events|
  {
    if events == [] then store else AfterRun(s, After(s, store, events[0]), events[1..])
  }

  /** Whatever happened before, a completed reconcile ends in the store that the initial one determines. */
  lemma {:induction false} EveryRunConverges(s: Settings, store: Store, events: seq<Event>)
    requires PossibleRun(s, store, events)
    ensures Reconciled(s, AfterRun(s, store, events)) == Reconciled(s, store)
    decreases |events|
  {
    hide Reconciled, Between;
    if events != [] {
      EveryRunConverges(s, After(s, store, events[0]), events[1..]);
      match events[0]
      case DepotWrites =>
      case ProviderCompletes => ReconcileIsIdempotent(s, store);
      case ProviderStops(now) => InterruptionIsHarmless(s, store, now);
    }
  }
}
