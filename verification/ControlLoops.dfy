/**
  The API server and the Provider reconciler as it runs against it: every call can fail, and before
  every call others may write. The reconciler is proved against the store transformation of
  `Reconcilers`, whatever happens between its calls.
 */
module ControlLoops {
  import opened Basics
  import opened Strings
  import opened Reconcilers

  // ------------------------------------------------------------------ the API server

  /** What others do before a call reaches the server: the Depot rewrites the Provider, the Version controller records a file name. */
  datatype Disturbance = DepotRewrites | FileRecorded(key: Key, fileName: string)

  datatype Outcome = Completed | NoProvider | Failed

  ghost function Specs(versions: map<Key, VersionObject>): Store {
    map k | k in versions :: versions[k].spec
  }

  /** Others leave the specs of objects alone, and an object that keeps its resource version is unchanged. */
  ghost predicate Steady(a: map<Key, VersionObject>, b: map<Key, VersionObject>) {
    && a.Keys == b.Keys
    && forall k :: k in a ==>
      && a[k].spec == b[k].spec
      && a[k].resourceVersion <= b[k].resourceVersion
      && (a[k].resourceVersion == b[k].resourceVersion ==> a[k] == b[k])
  }

  lemma {:induction false} SteadyRefl(a: map<Key, VersionObject>)
    ensures Steady(a, a)
  {
  }

  lemma {:induction false} SteadyTransitive(a: map<Key, VersionObject>, b: map<Key, VersionObject>, c: map<Key, VersionObject>)
    requires Steady(a, b) && Steady(b, c)
    ensures Steady(a, c)
  {
  }

  lemma {:induction false} SteadySpecs(a: map<Key, VersionObject>, b: map<Key, VersionObject>)
    requires Steady(a, b)
    ensures Specs(a) == Specs(b) && a.Keys == b.Keys
  {
  }

  lemma {:induction false} SpecsSet(versions: map<Key, VersionObject>, k: Key, v: VersionObject)
    ensures Specs(versions[k := v]) == Specs(versions)[k := v.spec]
  {
  }

  lemma {:induction false} SpecsWithout(versions: map<Key, VersionObject>, k: Key)
    ensures Specs(versions - {k}) == Specs(versions) - {k}
  {
  }

  /** No key is lost, and only keys that were not there are created. */
  ghost predicate OnlyAdded(keys: set<Key>, now: set<Key>, created: set<Key>, all: set<Key>) {
    keys <= now && forall k :: k in all && k !in created ==> k !in keys
  }

  lemma {:induction false} NoneAdded(keys: set<Key>, created: set<Key>)
    ensures OnlyAdded(keys, keys, created, created)
  {
  }

  lemma {:induction false} KeysAdded(keys: set<Key>, now: set<Key>, created: set<Key>, all: set<Key>)
    requires OnlyAdded(keys, now, created, all)
    ensures keys <= now
  {
  }

  lemma {:induction false} AddedMore(a: set<Key>, b: set<Key>, c: set<Key>, x: set<Key>, y: set<Key>, z: set<Key>)
    requires OnlyAdded(a, b, x, y) && OnlyAdded(b, c, y, z)
    ensures OnlyAdded(a, c, x, z)
  {
  }

  /** The file name of `k` after others' writes, when it was `name` before. */
  ghost function LastName(writes: seq<Disturbance>, k: Key, name: string): string
    decreases |writes|
  {
    if writes == [] then name
    else
      var last := writes[|writes| - 1];
      if last.FileRecorded? && last.key == k then last.fileName else LastName(writes[..|writes| - 1], k, name)
  }

  lemma {:induction false} LastNameInTurn(x: seq<Disturbance>, y: seq<Disturbance>, k: Key, name: string)
    ensures LastName(x + y, k, name) == LastName(y, k, LastName(x, k, name))
    decreases |y|
  {
    if y == [] {
      assert x + y == x;
    } else {
      assert (x + y)[..|x + y| - 1] == x + y[..|y| - 1];
      LastNameInTurn(x, y[..|y| - 1], k, name);
    }
  }

  /**
    An object of `a` that is still there has the file name that others recorded last, or else the one it
    had; and it was never replaced by a new object, whose resource version would start over.
   */
  ghost predicate Survive(a: map<Key, VersionObject>, b: map<Key, VersionObject>, writes: seq<Disturbance>) {
    forall k :: k in a && k in b ==>
      a[k].resourceVersion <= b[k].resourceVersion && b[k].fileName == LastName(writes, k, a[k].fileName)
  }

  lemma {:induction false} SurviveInTurn(a: map<Key, VersionObject>, b: map<Key, VersionObject>, c: map<Key, VersionObject>,
      x: seq<Disturbance>, y: seq<Disturbance>)
    requires Survive(a, b, x) && Survive(b, c, y) && a.Keys * c.Keys <= b.Keys
    ensures Survive(a, c, x + y)
  {
    hide LastName;
    forall k | k in a && k in c
      ensures a[k].resourceVersion <= c[k].resourceVersion && c[k].fileName == LastName(x + y, k, a[k].fileName)
    {
      assert k in a.Keys * c.Keys;
      LastNameInTurn(x, y, k, a[k].fileName);
    }
  }

  lemma {:induction false} SurviveNone(a: map<Key, VersionObject>)
    ensures Survive(a, a, [])
  {
  }

  /** One write by someone else, to the file name of an object or not. */
  lemma {:induction false} SurviveOne(a: map<Key, VersionObject>, d: Disturbance)
    ensures Survive(a, if d.FileRecorded? && d.key in a then a[d.key := Renamed(a[d.key], d.fileName)] else a, [d])
  {
    var none: seq<Disturbance> := [];
    assert [d][..0] == none;
    forall k: Key, name: string ensures LastName([d], k, name) == if d.FileRecorded? && d.key == k then d.fileName else name {
      assert LastName(none, k, name) == name;
    }
  }

  lemma {:induction false} SurviveBesides(a: map<Key, VersionObject>, b: map<Key, VersionObject>, writes: seq<Disturbance>, k: Key, v: VersionObject)
    requires Survive(a, b, writes)
    ensures Survive(a, b - {k}, writes)
    ensures k !in a ==> Survive(a, b[k := v], writes)
  {
  }

  function Renamed(v: VersionObject, fileName: string): VersionObject {
    v.(fileName := fileName, resourceVersion := v.resourceVersion + 1)
  }

  /** An object that others left alone keeps its name, also when its writer carries the name over. */
  lemma {:induction false} CarryOver(a: map<Key, VersionObject>, b: map<Key, VersionObject>, writes: seq<Disturbance>, k: Key, v: VersionObject)
    requires Survive(a, b, writes) && k in a && k in b && a[k] == b[k]
    requires v.fileName == a[k].fileName && v.resourceVersion >= a[k].resourceVersion
    ensures Survive(a, b[k := v], writes)
  {
  }

  type Script = nat -> seq<Disturbance>

  /** What others write before the calls numbered `first` and up, short of `end`. */
  ghost function Others(before: Script, first: nat, end: nat): seq<Disturbance>
    requires first <= end
    decreases end
  {
    if first == end then [] else Others(before, first, end - 1) + before(end - 1)
  }

  lemma {:induction false} OthersInTurn(before: Script, i: nat, j: nat, k: nat)
    requires i <= j <= k
    ensures Others(before, i, k) == Others(before, i, j) + Others(before, j, k)
    decreases k
  {
    if j < k {
      OthersInTurn(before, i, j, k - 1);
      assert Others(before, i, j) + (Others(before, j, k - 1) + before(k - 1)) == Others(before, i, k - 1) + before(k - 1);
    } else {
      assert Others(before, i, j) + [] == Others(before, i, j);
    }
  }

  lemma {:induction false} OneCall(before: Script, i: nat)
    ensures Others(before, i, i + 1) == before(i)
  {
    assert Others(before, i, i) + before(i) == before(i);
  }

  /** Objects that exist before and after these calls are the same objects, with the file names that others recorded last. */
  ghost predicate Kept(before: Script, a: map<Key, VersionObject>, b: map<Key, VersionObject>, first: nat, end: nat) {
    first <= end && Survive(a, b, Others(before, first, end))
  }

  /** What is kept by some calls and by the next ones is kept by all, unless it was away in between. */
  lemma {:induction false} KeptInTurn(before: Script, a: map<Key, VersionObject>, b: map<Key, VersionObject>, c: map<Key, VersionObject>,
      i: nat, j: nat, k: nat)
    requires Kept(before, a, b, i, j) && Kept(before, b, c, j, k) && a.Keys * c.Keys <= b.Keys
    ensures Kept(before, a, c, i, k)
  {
    hide Survive;
    OthersInTurn(before, i, j, k);
    SurviveInTurn(a, b, c, Others(before, i, j), Others(before, j, k));
  }

  lemma {:induction false} KeptWhileAdding(before: Script, a: map<Key, VersionObject>, b: map<Key, VersionObject>, c: map<Key, VersionObject>,
      i: nat, j: nat, k: nat, x: set<Key>, y: set<Key>)
    requires Kept(before, a, b, i, j) && Kept(before, b, c, j, k) && OnlyAdded(a.Keys, b.Keys, x, y)
    ensures Kept(before, a, c, i, k)
  {
    hide Kept;
    KeptInTurn(before, a, b, c, i, j, k);
  }

  lemma {:induction false} KeptAtOnce(before: Script, a: map<Key, VersionObject>, i: nat)
    ensures Kept(before, a, a, i, i)
  {
    SurviveNone(a);
    assert Others(before, i, i) == [];
  }

  class Cluster {
    const s: Settings
    const before: Script
    const fails: nat -> bool
    var calls: nat
    var provider: Option<seq<string>>
    var versions: map<Key, VersionObject>
    ghost var created: set<Key>
    ghost var deleted: set<Key>

    /** The list of versions of a Provider: the Depot's, or that list trimmed. */
    ghost predicate ListKnown(list: seq<string>) {
      list == s.full || Working(s.lib, s.config, s.full) == Some(list)
    }

    ghost predicate Valid()
      reads this`provider
    {
      provider.Some? ==> ListKnown(provider.value)
    }

    /** Nobody interferes and no call fails. */
    ghost predicate Quiet() {
      forall n :: before(n) == [] && !fails(n)
    }

    constructor (s: Settings, provider: Option<seq<string>>, versions: map<Key, VersionObject>, before: Script, fails: nat -> bool)
      requires provider.Some? ==> provider.value == s.full || Working(s.lib, s.config, s.full) == provider
      ensures Valid() && this.s == s && this.provider == provider && this.versions == versions
      ensures this.before == before && this.fails == fails
    {
      this.s, this.provider, this.versions, this.before, this.fails := s, provider, versions, before, fails;
      calls, created, deleted := 0, {}, {};
    }

    /** A write by someone else. */
    method Disturb(d: Disturbance)
      requires Valid()
      modifies this`provider, this`versions
      ensures Valid() && Steady(old(versions), versions) && (old(provider.Some?) ==> provider.Some?)
      ensures Survive(old(versions), versions, [d])
    {
      hide LastName;
      SurviveOne(versions, d);
      match d
      case DepotRewrites => provider := Some(s.full);
      case FileRecorded(key, fileName) =>
        if key in versions {
          versions := versions[key := Renamed(versions[key], fileName)];
        }
    }

    /** Before every call others may write; then it may fail. */
    method Call() returns (ok: bool)
      requires Valid()
      modifies this`calls, this`provider, this`versions
      ensures Valid() && Steady(old(versions), versions) && (old(provider.Some?) ==> provider.Some?)
      ensures Kept(before, old(versions), versions, old(calls), calls)
      ensures Quiet() ==> ok && versions == old(versions) && provider == old(provider)
    {
      hide Steady, Survive;
      var writes := before(calls);
      SteadyRefl(versions);
      SurviveNone(versions);
      for i := 0 to |writes|
        invariant Valid() && Steady(old(versions), versions) && (old(provider.Some?) ==> provider.Some?)
        invariant calls == old(calls) && Survive(old(versions), versions, writes[..i])
        invariant i == 0 ==> versions == old(versions) && provider == old(provider)
      {
        ghost var previous := versions;
        Disturb(writes[i]);
        SteadyTransitive(old(versions), previous, versions);
        SteadySpecs(old(versions), previous);
        SurviveInTurn(old(versions), previous, versions, writes[..i], [writes[i]]);
        assert writes[..i + 1] == writes[..i] + [writes[i]];
      }
      assert writes[..|writes|] == writes;
      OneCall(before, calls);
      ok := !fails(calls);
      calls := calls + 1;
    }

    method GetProvider() returns (ok: bool, list: Option<seq<string>>)
      requires Valid()
      modifies this`calls, this`provider, this`versions
      ensures Valid() && Steady(old(versions), versions) && list == provider && (old(provider.Some?) ==> provider.Some?)
      ensures Kept(before, old(versions), versions, old(calls), calls)
      ensures Quiet() ==> ok && provider == old(provider)
    {
      ok := Call();
      list := provider;
    }

    /** Writes the trimmed list, retrying until no other write intervenes. */
    method UpdateProvider(list: seq<string>) returns (ok: bool)
      requires Valid() && ListKnown(list)
      modifies this`calls, this`provider, this`versions
      ensures Valid() && Steady(old(versions), versions)
      ensures Kept(before, old(versions), versions, old(calls), calls)
      ensures Quiet() && old(provider.Some?) ==> ok
      ensures old(provider.Some?) ==> provider.Some?
    {
      ok := Call();
      if provider.None? {
        ok := false;
      }
      if ok {
        provider := Some(list);
      }
    }

    method GetVersion(key: Key) returns (ok: bool, found: Option<VersionObject>)
      requires Valid()
      modifies this`calls, this`provider, this`versions
      ensures Valid() && Steady(old(versions), versions) && (old(provider.Some?) ==> provider.Some?)
      ensures Kept(before, old(versions), versions, old(calls), calls)
      ensures found == if key in versions then Some(versions[key]) else None
      ensures Quiet() ==> ok
    {
      ok := Call();
      found := if key in versions then Some(versions[key]) else None;
    }

    method CreateVersion(key: Key, spec: VersionSpec) returns (ok: bool)
      requires Valid()
      modifies this`calls, this`provider, this`versions, this`created
      ensures Valid() && (old(provider.Some?) ==> provider.Some?)
      ensures Kept(before, old(versions), versions, old(calls), calls)
      ensures Specs(versions) == if ok then Specs(old(versions))[key := spec] else Specs(old(versions))
      ensures ok ==> key !in old(versions)
      ensures created == old(created) + if ok then {key} else {}
      ensures old(versions).Keys <= versions.Keys
      ensures Quiet() && key !in old(versions) ==> ok
    {
      hide Specs, Survive, Others;
      ok := Call();
      SteadySpecs(old(versions), versions);
      SpecsSet(versions, key, VersionObject(spec, "", 0));
      if key in versions {
        ok := false;
      }
      if ok {
        SurviveBesides(old(versions), versions, Others(before, old(calls), calls), key, VersionObject(spec, "", 0));
        versions := versions[key := VersionObject(spec, "", 0)];
        created := created + {key};
      }
    }

    /** A write for an outdated resource version is refused; an accepted one replaces the object, file name included. */
    method UpdateVersion(key: Key, updated: VersionObject) returns (ok: bool)
      requires Valid() && key in versions && updated.resourceVersion == versions[key].resourceVersion
      modifies this`calls, this`provider, this`versions
      ensures Valid() && (old(provider.Some?) ==> provider.Some?)
      ensures Specs(versions) == if ok then Specs(old(versions))[key := updated.spec] else Specs(old(versions))
      ensures ok ==> key in versions && versions[key].fileName == updated.fileName
      ensures updated.fileName == old(versions)[key].fileName ==> Kept(before, old(versions), versions, old(calls), calls)
      ensures old(versions).Keys <= versions.Keys
      ensures Quiet() ==> ok
    {
      hide Specs, Survive, Others;
      ok := Call();
      SteadySpecs(old(versions), versions);
      SpecsSet(versions, key, updated.(resourceVersion := updated.resourceVersion + 1));
      if versions[key].resourceVersion != updated.resourceVersion {
        ok := false;
      }
      if ok {
        assert versions[key] == old(versions)[key];
        if updated.fileName == old(versions)[key].fileName {
          CarryOver(old(versions), versions, Others(before, old(calls), calls), key, updated.(resourceVersion := updated.resourceVersion + 1));
        }
        versions := versions[key := updated.(resourceVersion := updated.resourceVersion + 1)];
      }
    }

    method ListSelected() returns (ok: bool, found: set<Key>)
      requires Valid()
      modifies this`calls, this`provider, this`versions
      ensures Valid() && Steady(old(versions), versions) && (old(provider.Some?) ==> provider.Some?)
      ensures Kept(before, old(versions), versions, old(calls), calls)
      ensures found == set k | k in versions && Selected(s, versions[k].spec)
      ensures Quiet() ==> ok
    {
      ok := Call();
      found := set k | k in versions && Selected(s, versions[k].spec);
    }

    method DeleteVersion(key: Key) returns (ok: bool)
      requires Valid()
      modifies this`calls, this`provider, this`versions, this`deleted
      ensures Valid() && (old(provider.Some?) ==> provider.Some?)
      ensures Kept(before, old(versions), versions, old(calls), calls)
      ensures Specs(versions) == if ok then Specs(old(versions)) - {key} else Specs(old(versions))
      ensures deleted == old(deleted) + if ok then {key} else {}
      ensures versions.Keys <= old(versions).Keys
      ensures Quiet() ==> ok
    {
      hide Specs, Survive, Others;
      ok := Call();
      SteadySpecs(old(versions), versions);
      if ok {
        SpecsWithout(versions, key);
        SurviveBesides(old(versions), versions, Others(before, old(calls), calls), key, VersionObject(VersionSpec("", "", "", "", ""), "", 0));
        versions := versions - {key};
        deleted := deleted + {key};
      }
    }

    // ---------------------------------------------------------------- the Provider reconciler

    /** Creates the Version of a cell, or brings it up to date. */
    method EnsureVersion(c: Cell) returns (ok: bool)
      requires Valid()
      modifies this`calls, this`provider, this`versions, this`created
      ensures Valid() && (old(provider.Some?) ==> provider.Some?)
      ensures Kept(before, old(versions), versions, old(calls), calls)
      ensures Specs(versions) == if ok then Specs(old(versions))[CellKey(s, c) := CellSpec(s, c)] else Specs(old(versions))
      ensures OnlyAdded(old(versions).Keys, versions.Keys, old(created), created)
      ensures Quiet() ==> ok
    {
      hide Steady, CellKey, CellSpec, Specs, Kept;
      var key := CellKey(s, c);
      var got, existing := GetVersion(key);
      SteadySpecs(old(versions), versions);
      if !got {
        return false;
      }
      ghost var read, turn := versions, calls;
      if existing.None? {
        ok := CreateVersion(key, CellSpec(s, c));
        KeptInTurn(before, old(versions), read, versions, old(calls), turn, calls);
        return;
      }
      var updated := VersionObject(CellSpec(s, c), existing.value.fileName, existing.value.resourceVersion);
      ok := UpdateVersion(key, updated);
      KeptInTurn(before, old(versions), read, versions, old(calls), turn, calls);
    }

    /** Writes a Version for every version, operating system and architecture; `names` are the names they have. */
    method WriteVersions(list: seq<string>) returns (ok: bool, names: set<string>)
      requires Valid() && Working(s.lib, s.config, s.full) == Some(list)
      modifies this`calls, this`provider, this`versions, this`created
      ensures Valid() && (old(provider.Some?) ==> provider.Some?)
      ensures Kept(before, old(versions), versions, old(calls), calls)
      ensures ok ==> Specs(versions) == Written(s, old(Specs(versions)), Wanted(s)) && names == Names(s, Wanted(s))
      ensures !ok ==> Between(s, old(Specs(versions)), Specs(versions))
      ensures OnlyAdded(old(versions).Keys, versions.Keys, old(created), created)
      ensures Quiet() ==> ok
    {
      hide OnlyAdded, Kept, Grid, Row, Line, Progress, Between, Specs, Working, SanitizeVersion;
      ok, names := true, {};
      var systems, architectures := s.config.operatingSystems, s.config.architectures;
      ghost var start, done := Specs(versions), [];
      StartProgress(s, start, list);
      NoneAdded(versions.Keys, created);
      KeptAtOnce(before, versions, calls);
      for i := 0 to |list|
        invariant Kept(before, old(versions), versions, old(calls), calls)
        invariant Valid() && ok && (old(provider.Some?) ==> provider.Some?) && OnlyAdded(old(versions).Keys, versions.Keys, old(created), created)
        invariant Progress(s, start, Specs(versions), names, done) && done == Grid(list[..i], systems, architectures)
      {
        var version := SanitizeVersion(list[i]);
        ghost var head := done;
        StartRow(head, version, systems, architectures);
        for j := 0 to |systems|
          invariant Kept(before, old(versions), versions, old(calls), calls)
          invariant Valid() && ok && (old(provider.Some?) ==> provider.Some?) && OnlyAdded(old(versions).Keys, versions.Keys, old(created), created)
          invariant Progress(s, start, Specs(versions), names, done) && done == head + Row(version, systems[..j], architectures)
        {
          ghost var row := done;
          StartLine(row, version, systems[j], architectures);
          for k := 0 to |architectures|
            invariant Kept(before, old(versions), versions, old(calls), calls)
            invariant Valid() && ok && (old(provider.Some?) ==> provider.Some?) && OnlyAdded(old(versions).Keys, versions.Keys, old(created), created)
            invariant Progress(s, start, Specs(versions), names, done) && done == row + Line(version, systems[j], architectures[..k])
          {
            var cell := Cell(version, systems[j], architectures[k]);
            IsWanted(s, list, i, j, k);
            ProgressIsBetween(s, start, Specs(versions), names, done);
            NextProgress(s, start, Specs(versions), names, done, cell);
            NextLine(row, version, systems[j], architectures, k);
            names := names + {CellName(s, cell)};
            ghost var keys, made, earlier, turn := versions.Keys, created, versions, calls;
            ok := EnsureVersion(cell);
            AddedMore(old(versions).Keys, keys, versions.Keys, old(created), made, created);
            KeptWhileAdding(before, old(versions), earlier, versions, old(calls), turn, calls, old(created), made);
            if !ok {
              return;
            }
            done := done + [cell];
          }
          assert architectures[..|architectures|] == architectures;
          NextRow(head, version, systems, architectures, j);
        }
        assert systems[..|systems|] == systems;
        NextGrid(list, systems, architectures, i);
      }
      assert list[..|list|] == list;
      EndProgress(s, start, Specs(versions), names, done, list);
    }

    /** Deletes what the labels select, except the names wanted. */
    method ReconcileVersionRemovals(wanted: set<string>) returns (ok: bool)
      requires Valid()
      modifies this`calls, this`provider, this`versions, this`deleted
      ensures Valid() && (old(provider.Some?) ==> provider.Some?)
      ensures Kept(before, old(versions), versions, old(calls), calls)
      ensures ok ==> Specs(versions) == Cleaned(s, wanted, old(Specs(versions)))
      ensures PartlyCleaned(s, wanted, old(Specs(versions)), Specs(versions))
      ensures forall k :: k in deleted && k !in old(deleted) ==> k in old(Specs(versions)) && Stale(s, wanted, k, old(Specs(versions))[k])
      ensures versions.Keys <= old(versions).Keys
      ensures Quiet() ==> ok
    {
      hide Steady, PartlyCleaned, Specs, Kept;
      ghost var start := Specs(versions);
      var listed, found := ListSelected();
      SteadySpecs(old(versions), versions);
      SelectedKeys(s, versions);
      NothingDeleted(s, wanted, start, found);
      if !listed {
        return false;
      }
      var todo := found;
      while todo != {}
        invariant Valid() && todo <= found && versions.Keys <= old(versions).Keys && (old(provider.Some?) ==> provider.Some?)
        invariant Kept(before, old(versions), versions, old(calls), calls)
        invariant Specs(versions) == Deleted(s, wanted, start, found - todo)
        invariant PartlyCleaned(s, wanted, start, Specs(versions))
        invariant forall k :: k in deleted && k !in old(deleted) ==> k in start && Stale(s, wanted, k, start[k])
      {
        hide Deleted;
        var key :| key in todo;
        Visit(found, todo, key);
        DeleteNext(s, wanted, start, found, found - todo, key);
        todo := todo - {key};
        if key.name in wanted {
          continue;
        }
        ghost var earlier, turn := versions, calls;
        ok := DeleteVersion(key);
        KeptInTurn(before, old(versions), earlier, versions, old(calls), turn, calls);
        if !ok {
          return;
        }
      }
      assert found - todo == found;
      AllDeleted(s, wanted, start, found);
      ok := true;
    }

    /**
      One reconcile of the Provider. Whatever others do meanwhile, a completed one ends in the store that
      `Reconciled` describes, and an interrupted one somewhere on the way there.
     */
    method Reconcile() returns (outcome: Outcome)
      requires Valid()
      modifies this
      ensures Valid()
      ensures Kept(before, old(versions), versions, old(calls), calls)
      ensures outcome.Completed? ==> Specs(versions) == Reconciled(s, old(Specs(versions)))
      ensures outcome.NoProvider? ==> Specs(versions) == old(Specs(versions)) && old(provider).None?
      ensures outcome.Failed? ==> Between(s, old(Specs(versions)), Specs(versions))
      ensures forall k :: k in created && k !in old(created) ==> k !in old(versions)
      ensures forall k :: k in deleted && k !in old(deleted) ==> k.name !in Names(s, Wanted(s))
      ensures Quiet() && old(provider.Some?) && Sound(s) ==> outcome.Completed?
    {
      hide Steady, Kept, Specs, Reconciled, Between, Written, Working, Wanted, AllValid, Retained, Grid, PartlyCleaned;
      ghost var start := Specs(versions);
      UnchangedIsBetween(s, start);
      var read, current := GetProvider();
      SteadySpecs(old(versions), versions);
      if !read {
        return Failed;
      }
      if current.None? {
        return NoProvider;
      }
      if s.config.operatingSystems == [] || s.config.architectures == [] {
        return Failed;
      }
      var kept := VersionsToKeep(s.lib, s.config, current.value);
      WorkingVersions(s, current.value, kept);
      var list := current.value;
      if kept.Panic? {
        return Failed;
      }
      if kept.Keep? && |kept.versions| < |list| {
        list := kept.versions;
        ghost var previous, turn := versions, calls;
        var trimmed := UpdateProvider(list);
        SteadySpecs(previous, versions);
        KeptInTurn(before, old(versions), previous, versions, old(calls), turn, calls);
        if !trimmed {
          return Failed;
        }
      }
      ghost var trimmed, turn := versions, calls;
      var written, names := WriteVersions(list);
      KeysAdded(trimmed.Keys, versions.Keys, old(created), created);
      KeptInTurn(before, old(versions), trimmed, versions, old(calls), turn, calls);
      if !written {
        return Failed;
      }
      ghost var cells := Wanted(s);
      WrittenIsBetween(s, start, cells);
      ghost var all := versions;
      turn := calls;
      var reported := ReportStatus();
      KeptInTurn(before, old(versions), all, versions, old(calls), turn, calls);
      if !reported {
        return Failed;
      }
      ghost var told := versions;
      turn := calls;
      var cleaned := ReconcileVersionRemovals(names);
      KeptInTurn(before, old(versions), told, versions, old(calls), turn, calls);
      if !cleaned {
        PartlyIsBetween(s, start, Specs(versions));
        return Failed;
      }
      ReconciledIs(s, start);
      return Completed;
    }

    method ReportStatus() returns (ok: bool)
      requires Valid()
      modifies this`calls, this`provider, this`versions
      ensures Valid() && Specs(versions) == old(Specs(versions)) && versions.Keys == old(versions).Keys && (old(provider.Some?) ==> provider.Some?)
      ensures Kept(before, old(versions), versions, old(calls), calls)
      ensures Quiet() && old(provider.Some?) ==> ok
    {
      ok := Call();
      SteadySpecs(old(versions), versions);
      if provider.None? {
        ok := false;
      }
    }
  }

  /** Settings with which nothing but others can stop a reconcile. */
  ghost predicate Sound(s: Settings) {
    && s.config.operatingSystems != [] && s.config.architectures != []
    && AllValid(s.lib, s.full) && Working(s.lib, s.config, s.full).Some?
  }

  /** The cells `done`, all of them wanted, have been written, and their names collected. */
  ghost predicate Progress(s: Settings, start: Store, now: Store, names: set<string>, done: seq<Cell>) {
    now == Written(s, start, done) && names == Names(s, done) && forall c :: c in done ==> c in Wanted(s)
  }

  lemma {:induction false} StartProgress(s: Settings, start: Store, list: seq<string>)
    ensures Progress(s, start, start, {}, []) && Grid(list[..0], s.config.operatingSystems, s.config.architectures) == []
  {
  }

  lemma {:induction false} StartRow(before: seq<Cell>, version: string, systems: seq<string>, architectures: seq<string>)
    ensures before + Row(version, systems[..0], architectures) == before
  {
  }

  lemma {:induction false} StartLine(before: seq<Cell>, version: string, system: string, architectures: seq<string>)
    ensures before + Line(version, system, architectures[..0]) == before
  {
  }

  lemma {:induction false} NextLine(before: seq<Cell>, version: string, system: string, architectures: seq<string>, k: nat)
    requires k < |architectures|
    ensures before + Line(version, system, architectures[..k + 1])
         == before + Line(version, system, architectures[..k]) + [Cell(version, system, architectures[k])]
  {
    assert Line(version, system, architectures[..k + 1]) == Line(version, system, architectures[..k]) + [Cell(version, system, architectures[k])];
  }

  lemma {:induction false} NextRow(before: seq<Cell>, version: string, systems: seq<string>, architectures: seq<string>, j: nat)
    requires j < |systems|
    ensures before + Row(version, systems[..j + 1], architectures)
         == before + Row(version, systems[..j], architectures) + Line(version, systems[j], architectures)
  {
    hide Line;
    assert systems[..j + 1][..j] == systems[..j];
  }

  lemma {:induction false} NextGrid(list: seq<string>, systems: seq<string>, architectures: seq<string>, i: nat)
    requires i < |list|
    ensures Grid(list[..i + 1], systems, architectures)
         == Grid(list[..i], systems, architectures) + Row(SanitizeVersion(list[i]), systems, architectures)
  {
    hide Row, SanitizeVersion;
    assert list[..i + 1][..i] == list[..i];
  }

  lemma {:induction false} IsWanted(s: Settings, list: seq<string>, i: nat, j: nat, k: nat)
    requires Working(s.lib, s.config, s.full) == Some(list)
    requires i < |list| && j < |s.config.operatingSystems| && k < |s.config.architectures|
    ensures Cell(SanitizeVersion(list[i]), s.config.operatingSystems[j], s.config.architectures[k]) in Wanted(s)
  {
    hide Working, SanitizeVersion;
    InGrid(list, s.config.operatingSystems, s.config.architectures,
      Cell(SanitizeVersion(list[i]), s.config.operatingSystems[j], s.config.architectures[k]));
  }

  lemma {:induction false} NextProgress(s: Settings, start: Store, now: Store, names: set<string>, done: seq<Cell>, c: Cell)
    requires Progress(s, start, now, names, done) && c in Wanted(s)
    ensures Progress(s, start, now[CellKey(s, c) := CellSpec(s, c)], names + {CellName(s, c)}, done + [c])
  {
    hide Wanted, CellKey, CellSpec, CellName;
    assert (done + [c])[..|done|] == done;
    assert forall d :: d in done + [c] <==> d in done || d == c;
  }

  lemma {:induction false} WrittenIsBetween(s: Settings, start: Store, done: seq<Cell>)
    requires forall c :: c in done ==> c in Wanted(s)
    ensures Between(s, start, Written(s, start, done))
  {
    hide Written, Wanted, CellName;
    var wanted := Names(s, Wanted(s));
    assert Names(s, done) <= wanted;
    forall k | k in Written(s, start, done) && !(k.namespace == s.namespace && k.name in wanted)
      ensures k in start && Written(s, start, done)[k] == start[k]
    {
      WrittenElsewhere(s, start, done, k);
    }
    forall k | k in start ensures k in Written(s, start, done) {
      if k.namespace == s.namespace && k.name in Names(s, done) {
        WrittenHere(s, start, done, k);
      } else {
        WrittenElsewhere(s, start, done, k);
      }
    }
  }

  lemma {:induction false} ProgressIsBetween(s: Settings, start: Store, now: Store, names: set<string>, done: seq<Cell>)
    requires Progress(s, start, now, names, done)
    ensures Between(s, start, now)
  {
    hide Between, Written, Wanted, Names;
    WrittenIsBetween(s, start, done);
  }

  lemma {:induction false} EndProgress(s: Settings, start: Store, now: Store, names: set<string>, done: seq<Cell>, list: seq<string>)
    requires Progress(s, start, now, names, done) && Working(s.lib, s.config, s.full) == Some(list)
    requires done == Grid(list, s.config.operatingSystems, s.config.architectures)
    ensures now == Written(s, start, Wanted(s)) && names == Names(s, Wanted(s))
  {
    hide Grid, Working, Written, Names;
  }

  ghost predicate PartlyCleaned(s: Settings, wanted: set<string>, before: Store, now: Store) {
    && (forall k :: k in now ==> k in before && now[k] == before[k])
    && (forall k :: k in before && k !in now ==> Stale(s, wanted, k, before[k]))
  }

  /** The store without those of the keys `gone` whose names are not wanted. */
  ghost function Deleted(s: Settings, wanted: set<string>, store: Store, gone: set<Key>): Store {
    map k | k in store && !(k in gone && k.name !in wanted) :: store[k]
  }

  lemma {:induction false} SelectedKeys(s: Settings, versions: map<Key, VersionObject>)
    ensures (set k | k in versions && Selected(s, versions[k].spec)) == set k | k in Specs(versions) && Selected(s, Specs(versions)[k])
  {
  }

  lemma {:induction false} NothingDeleted(s: Settings, wanted: set<string>, store: Store, found: set<Key>)
    ensures Deleted(s, wanted, store, found - found) == store && PartlyCleaned(s, wanted, store, store)
  {
  }

  lemma {:induction false} DeleteNext(s: Settings, wanted: set<string>, store: Store, found: set<Key>, gone: set<Key>, key: Key)
    requires found == (set k | k in store && Selected(s, store[k])) && gone <= found && key in found
    ensures Deleted(s, wanted, store, gone + {key}) ==
      if key.name in wanted then Deleted(s, wanted, store, gone) else Deleted(s, wanted, store, gone) - {key}
    ensures PartlyCleaned(s, wanted, store, Deleted(s, wanted, store, gone + {key}))
  {
  }

  lemma {:induction false} AllDeleted(s: Settings, wanted: set<string>, store: Store, found: set<Key>)
    requires found == set k | k in store && Selected(s, store[k])
    ensures Deleted(s, wanted, store, found) == Cleaned(s, wanted, store)
  {
  }

  lemma {:induction false} UnchangedIsBetween(s: Settings, store: Store)
    ensures Between(s, store, store)
  {
  }

  lemma {:induction false} PartlyIsBetween(s: Settings, start: Store, now: Store)
    requires PartlyCleaned(s, Names(s, Wanted(s)), Written(s, start, Wanted(s)), now)
    ensures Between(s, start, now)
  {
    hide Written, Wanted, CellName, Names;
    WrittenIsBetween(s, start, Wanted(s));
    var wanted, written := Names(s, Wanted(s)), Written(s, start, Wanted(s));
    forall k | k in start && k !in now ensures Stale(s, wanted, k, start[k]) {
      if !(k.namespace == s.namespace && k.name in wanted) {
        WrittenElsewhere(s, start, Wanted(s), k);
      }
    }
  }

  lemma {:induction false} ReconciledIs(s: Settings, start: Store)
    ensures Reconciled(s, start) == Cleaned(s, Names(s, Wanted(s)), Written(s, start, Wanted(s)))
  {
  }

  /** Whichever list the Provider held, what is left after trimming is what the Provider should work with. */
  lemma {:induction false} WorkingVersions(s: Settings, list: seq<string>, kept: Retention)
    requires list == s.full || Working(s.lib, s.config, s.full) == Some(list)
    requires kept == Retained(s.lib, s.config, list)
    ensures var left := if kept.Keep? && |kept.versions| < |list| then kept.versions else list;
      !kept.Panic? ==> Working(s.lib, s.config, s.full) == Some(left)
    ensures Sound(s) ==> !kept.Panic?
  {
    TrimmedOnce(s.lib, s.config, s.full);
    if Sound(s) {
      TrimmingIsStable(s.lib, s.config, s.full);
    }
  }
}
