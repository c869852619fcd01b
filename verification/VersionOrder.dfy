/**
  The hand-written version comparison of the browse API and the loops that pick a latest version
  with it.
 */
module VersionOrder {
  import opened Basics
  import opened Strings

  /** Lower-casing as the string library does it; the order is sound for any such function. */
  type Lower = string -> string

  // ------------------------------------------------------------------ tokens

  predicate IsSeparator(c: char) {
    c == '.' || c == '+' || c == '-'
  }

  predicate SeparatorFree(s: string) {
    forall i :: 0 <= i < |s| ==> !IsSeparator(s[i])
  }

  /** Appends the piece `s` unless it is empty. */
  function AddPart(parts: seq<string>, s: string): seq<string> {
    if s == "" then parts else parts + [s]
  }

  /** Where the last, separator-free piece of `s` starts. */
  function LastStart(s: string): (k: nat)
    ensures k <= |s|
    decreases |s|
  {
    if s == "" then 0
    else if IsSeparator(s[|s| - 1]) then |s|
    else LastStart(s[..|s| - 1])
  }

  /** The nonempty pieces of `s` between separators. */
  function Parts(s: string): seq<string>
    decreases |s|
  {
    var k := LastStart(s);
    AddPart(if k == 0 then [] else Parts(s[..k - 1]), s[k..])
  }

  method SplitVersionParts(v: string) returns (parts: seq<string>)
    ensures parts == Parts(v)
  {
    hide Parts, LastStart, AddPart, IsSeparator;
    parts := [];
    var start := 0;
    NoStart(v);
    for i := 0 to |v|
      invariant start <= i && start == LastStart(v[..i])
      invariant parts == PartsBefore(v, start)
    {
      NextStart(v, i);
      if IsSeparator(v[i]) {
        PiecesBefore(v, start, i);
        if i > start {
          parts := parts + [v[start..i]];
        }
        start := i + 1;
      }
    }
    PiecesBefore(v, start, |v|);
    assert v[..|v|] == v;
    if start < |v| {
      parts := parts + [v[start..]];
    }
  }

  /** The parts before the piece that starts at `start`. */
  function PartsBefore(v: string, start: nat): seq<string>
    requires start <= |v|
  {
    if start == 0 then [] else Parts(v[..start - 1])
  }

  lemma {:induction false} NoStart(v: string)
    ensures LastStart(v[..0]) == 0
  {
  }

  lemma {:induction false} NextStart(v: string, i: nat)
    requires i < |v|
    ensures LastStart(v[..i + 1]) == if IsSeparator(v[i]) then i + 1 else LastStart(v[..i])
  {
    assert v[..i + 1][..i] == v[..i];
  }

  /** The parts up to `i` are those before the last piece, and the piece unless it is empty. */
  lemma {:induction false} PiecesBefore(v: string, start: nat, i: nat)
    requires start <= i <= |v| && start == LastStart(v[..i])
    ensures Parts(v[..i]) == if i > start then PartsBefore(v, start) + [v[start..i]] else PartsBefore(v, start)
  {
    assert v[..i][start..] == v[start..i];
    assert start > 0 ==> v[..i][..start - 1] == v[..start - 1];
  }

  lemma {:induction false} LastStartOf(s: string)
    ensures SeparatorFree(s[LastStart(s)..])
    ensures LastStart(s) > 0 ==> IsSeparator(s[LastStart(s) - 1])
    decreases |s|
  {
    if s != "" && !IsSeparator(s[|s| - 1]) {
      var front := s[..|s| - 1];
      LastStartOf(front);
      assert s[LastStart(s)..] == front[LastStart(front)..] + [s[|s| - 1]];
    }
  }

  lemma {:induction false} LastStartConcat(a: string, c: char, b: string)
    requires IsSeparator(c)
    ensures LastStart(a + [c] + b) == |a| + 1 + LastStart(b)
    decreases |b|
  {
    var s := a + [c] + b;
    if b == "" {
      assert s[|s| - 1] == c;
    } else {
      assert s[|s| - 1] == b[|b| - 1];
      assert s[..|s| - 1] == a + [c] + b[..|b| - 1];
      if !IsSeparator(b[|b| - 1]) {
        LastStartConcat(a, c, b[..|b| - 1]);
      }
    }
  }

  /** A separator-free piece is one part, and the empty string none. */
  lemma {:induction false} PartsWhole(a: string)
    requires SeparatorFree(a)
    ensures Parts(a) == if a == "" then [] else [a]
  {
    LastStartOf(a);
    assert LastStart(a) == 0;
    assert a[0..] == a;
  }

  /** A separator splits: the parts before it are followed by those after it. */
  lemma {:induction false} PartsSplit(a: string, c: char, b: string)
    requires IsSeparator(c)
    ensures Parts(a + [c] + b) == Parts(a) + Parts(b)
    decreases |b|
  {
    hide LastStart, IsSeparator;
    var s, k := a + [c] + b, LastStart(b);
    LastStartConcat(a, c, b);
    assert s[|a| + 1 + k..] == b[k..];
    var front := if k == 0 then a else a + [c] + b[..k - 1];
    assert s[..|a| + k] == front;
    if k > 0 {
      PartsSplit(a, c, b[..k - 1]);
    }
    AddPartAppend(Parts(a), if k == 0 then [] else Parts(b[..k - 1]), b[k..]);
  }

  lemma {:induction false} AddPartAppend(xs: seq<string>, ys: seq<string>, s: string)
    ensures AddPart(xs + ys, s) == xs + AddPart(ys, s)
  {
  }

  // ------------------------------------------------------------------ the order on tokens

  predicate IsDigit(c: char) {
    '0' <= c <= '9'
  }

  function Value(digits: string): nat
    requires forall i :: 0 <= i < |digits| ==> IsDigit(digits[i])
  {
    if digits == "" then 0
    else
      assert IsDigit(digits[|digits| - 1]);
      Value(digits[..|digits| - 1]) * 10 + (digits[|digits| - 1] as int - '0' as int)
  }

  const MAX_INT: int := 0x7FFF_FFFF_FFFF_FFFF

  /** A token without separators has no sign, so it is a number when it is all digits and fits 64 bits. */
  function Atoi(s: string): Option<nat> {
    if s != "" && (forall i :: 0 <= i < |s| ==> IsDigit(s[i])) && Value(s) <= MAX_INT then Some(Value(s)) else None
  }

  /** What a token is compared by. */
  datatype Key = Num(n: nat) | Text(s: string)

  function KeyOf(lower: Lower, token: string): Key {
    match Atoi(token)
    case Some(n) => Num(n)
    case None => Text(lower(token))
  }

  function Keys(lower: Lower, version: string): seq<Key> {
    var parts := Parts(SanitizeVersion(version));
    seq(|parts|, i requires 0 <= i < |parts| => KeyOf(lower, parts[i]))
  }

  /** A larger number is newer, any number is newer than text, and text compares backwards. */
  predicate KeyNewer(a: Key, b: Key) {
    match (a, b)
    case (Num(m), Num(n)) => m > n
    case (Num(_), Text(_)) => true
    case (Text(_), Num(_)) => false
    case (Text(s), Text(t)) => Less(t, s)
  }

  /** The first difference decides, and a longer version is newer than its prefix. */
  predicate KeysNewer(a: seq<Key>, b: seq<Key>)
    decreases |a|
  {
    a != [] && (b == [] || KeyNewer(a[0], b[0]) || (a[0] == b[0] && KeysNewer(a[1..], b[1..])))
  }

  predicate Newer(lower: Lower, a: string, b: string) {
    KeysNewer(Keys(lower, a), Keys(lower, b))
  }

  method CompareVersionDesc(lower: Lower, a: string, b: string) returns (newer: bool)
    ensures newer == Newer(lower, a, b)
  {
    var aParts := SplitVersionParts(SanitizeVersion(a));
    var bParts := SplitVersionParts(SanitizeVersion(b));
    var length := if |aParts| > |bParts| then |aParts| else |bParts|;
    ghost var aKeys, bKeys := Keys(lower, a), Keys(lower, b);
    assert aKeys[0..] == aKeys && bKeys[0..] == bKeys;
    for i := 0 to length
      invariant i <= |aKeys| && i <= |bKeys|
      invariant Newer(lower, a, b) == KeysNewer(aKeys[i..], bKeys[i..])
    {
      assert i < |aKeys| ==> aKeys[i..][1..] == aKeys[i + 1..];
      assert i < |bKeys| ==> bKeys[i..][1..] == bKeys[i + 1..];
      if i >= |aParts| {
        return false;
      }
      if i >= |bParts| {
        return true;
      }
      KeyNewerIrreflexive(bKeys[i]);
      var aNum, bNum := Atoi(aParts[i]), Atoi(bParts[i]);
      if aNum.Some? && bNum.Some? {
        if aNum != bNum {
          return aNum.value > bNum.value;
        }
      } else if aNum.Some? {
        return true;
      } else if bNum.Some? {
        return false;
      } else {
        var al, bl := lower(aParts[i]), lower(bParts[i]);
        if al != bl {
          return Less(bl, al);
        }
      }
    }
    return false;
  }

  // ------------------------------------------------------------------ a strict weak order

  lemma {:induction false} KeyNewerIrreflexive(k: Key)
    ensures !KeyNewer(k, k)
  {
    if k.Text? { LessIrreflexive(k.s); }
  }

  lemma {:induction false} KeyNewerTransitive(a: Key, b: Key, c: Key)
    requires KeyNewer(a, b) && KeyNewer(b, c)
    ensures KeyNewer(a, c)
  {
    if a.Text? { LessTransitive(c.s, b.s, a.s); }
  }

  lemma {:induction false} KeyNewerTotal(a: Key, b: Key)
    ensures KeyNewer(a, b) || a == b || KeyNewer(b, a)
  {
    if a.Text? && b.Text? { LessTotal(a.s, b.s); }
  }

  lemma {:induction false} KeysNewerTransitive(a: seq<Key>, b: seq<Key>, c: seq<Key>)
    requires KeysNewer(a, b) && KeysNewer(b, c)
    ensures KeysNewer(a, c)
    decreases |a|
  {
    if c != [] {
      if KeyNewer(a[0], b[0]) {
        if KeyNewer(b[0], c[0]) { KeyNewerTransitive(a[0], b[0], c[0]); }
      } else if a[0] == b[0] && b[0] == c[0] && !KeyNewer(b[0], c[0]) {
        KeysNewerTransitive(a[1..], b[1..], c[1..]);
      }
    }
  }

  lemma {:induction false} KeysNewerTotal(a: seq<Key>, b: seq<Key>)
    ensures KeysNewer(a, b) || a == b || KeysNewer(b, a)
    decreases |a|
  {
    if a != [] && b != [] {
      KeyNewerTotal(a[0], b[0]);
      KeysNewerTotal(a[1..], b[1..]);
      assert a == [a[0]] + a[1..] && b == [b[0]] + b[1..];
    }
  }

  lemma {:induction false} KeysNewerIrreflexive(a: seq<Key>)
    ensures !KeysNewer(a, a)
    decreases |a|
  {
    if a != [] {
      KeyNewerIrreflexive(a[0]);
      KeysNewerIrreflexive(a[1..]);
    }
  }

  /** Neither of two versions is newer exactly when their tokens compare equal one by one. */
  lemma {:induction false} TieIff(lower: Lower, a: string, b: string)
    ensures !Newer(lower, a, b) && !Newer(lower, b, a) <==> Keys(lower, a) == Keys(lower, b)
  {
    KeysNewerTotal(Keys(lower, a), Keys(lower, b));
    KeysNewerIrreflexive(Keys(lower, a));
  }

  /** On all strings: irreflexive, transitive, and ties are transitive. */
  lemma {:induction false} StrictWeakOrder(lower: Lower, a: string, b: string, c: string)
    ensures !Newer(lower, a, a)
    ensures Newer(lower, a, b) && Newer(lower, b, c) ==> Newer(lower, a, c)
    ensures !Newer(lower, a, b) && !Newer(lower, b, c) ==> !Newer(lower, a, c)
  {
    var ka, kb, kc := Keys(lower, a), Keys(lower, b), Keys(lower, c);
    KeysNewerIrreflexive(ka);
    if KeysNewer(ka, kb) && KeysNewer(kb, kc) {
      KeysNewerTransitive(ka, kb, kc);
    }
    if !KeysNewer(ka, kb) && !KeysNewer(kb, kc) && KeysNewer(ka, kc) {
      KeysNewerTotal(ka, kb);
      KeysNewerTotal(kb, kc);
      if KeysNewer(kb, ka) {
        KeysNewerTransitive(kb, ka, kc);
      }
    }
  }

  // ------------------------------------------------------------------ picking the latest

  /** No version in `candidates` is newer than `best`. */
  ghost predicate Unbeaten(lower: Lower, best: string, candidates: set<string>) {
    forall v :: v in candidates ==> !Newer(lower, v, best)
  }

  /** A new best leaves everything seen so far unbeaten by what was seen. */
  lemma {:induction false} ReplaceBest(lower: Lower, best: string, better: string, candidates: set<string>)
    requires Unbeaten(lower, best, candidates) && Newer(lower, better, best)
    ensures Unbeaten(lower, better, candidates + {better})
  {
    forall v | v in candidates + {better} ensures !Newer(lower, v, better) {
      StrictWeakOrder(lower, v, better, best);
    }
  }

  lemma {:induction false} KeepBest(lower: Lower, best: string, other: string, candidates: set<string>)
    requires Unbeaten(lower, best, candidates) && !Newer(lower, other, best)
    ensures Unbeaten(lower, best, candidates + {other})
  {
  }

  function Sanitized(versions: seq<string>): seq<string> {
    seq(|versions|, i requires 0 <= i < |versions| => SanitizeVersion(versions[i]))
  }

  /** A version without tokens is beaten by everything that has one. */
  lemma {:induction false} EmptyIsOldest(lower: Lower, v: string)
    ensures !Newer(lower, "", v)
  {
    assert Parts(SanitizeVersion("")) == [];
  }

  /** The recorded latest version if there is one, else a sanitized version that no other beats. */
  method ResolveLatestModuleVersion(lower: Lower, recorded: string, versions: seq<string>) returns (latest: string)
    ensures SanitizeVersion(recorded) != "" ==> latest == SanitizeVersion(recorded)
    ensures SanitizeVersion(recorded) == "" ==> latest == "" || latest in Sanitized(versions)
    ensures SanitizeVersion(recorded) == "" ==> Unbeaten(lower, latest, Elements(Sanitized(versions)))
  {
    hide Newer;
    latest := SanitizeVersion(recorded);
    if latest != "" {
      return;
    }
    ghost var seen: set<string> := {};
    for i := 0 to |versions|
      invariant latest == "" || latest in Sanitized(versions)
      invariant seen == Elements(Sanitized(versions)[..i])
      invariant Unbeaten(lower, latest, seen)
    {
      var nv := SanitizeVersion(versions[i]);
      assert nv == Sanitized(versions)[i];
      assert Sanitized(versions)[..i + 1] == Sanitized(versions)[..i] + [nv];
      var newer := CompareVersionDesc(lower, nv, latest);
      if latest == "" || newer {
        if newer {
          ReplaceBest(lower, latest, nv, seen);
        } else {
          NothingBeatsTie(lower, nv, seen);
        }
        latest := nv;
      } else {
        KeepBest(lower, latest, nv, seen);
      }
      seen := seen + {nv};
    }
    assert Sanitized(versions)[..|versions|] == Sanitized(versions);
  }

  /** If nothing seen beats the empty version and `nv` does not either, `nv` ties with all of them. */
  lemma {:induction false} NothingBeatsTie(lower: Lower, nv: string, seen: set<string>)
    requires Unbeaten(lower, "", seen) && !Newer(lower, nv, "")
    ensures Unbeaten(lower, nv, seen + {nv})
  {
    EmptyIsOldest(lower, nv);
    forall v | v in seen + {nv} ensures !Newer(lower, v, nv) {
      StrictWeakOrder(lower, v, "", nv);
      StrictWeakOrder(lower, nv, nv, nv);
    }
  }

  /** A published version, as far as scan selection looks at it. */
  datatype Published = Published(version: string, os: string, arch: string, hasSourceScan: bool, hasBinaryFindings: bool)

  /** None of the first `n` versions is scanned and is the requested one. */
  ghost predicate NoneMatches(vs: seq<Published>, n: nat, requested: string)
    requires n <= |vs|
  {
    forall j :: 0 <= j < n && vs[j].hasSourceScan ==> SanitizeVersion(vs[j].version) != requested
  }

  /** Version `k` is scanned and none of the first `n` scanned versions is newer. */
  ghost predicate LatestScanned(lower: Lower, vs: seq<Published>, n: nat, k: nat)
    requires n <= |vs|
  {
    && k < n && vs[k].hasSourceScan
    && forall j :: 0 <= j < n && vs[j].hasSourceScan ==> !Newer(lower, vs[j].version, vs[k].version)
  }

  /** The first scanned version that is the requested one; without a request, a scanned version no other beats. */
  method FindProviderSourceScan(lower: Lower, versions: seq<Published>, requested: string) returns (found: Option<nat>)
    ensures requested != "" ==>
      match found
      case Some(k) => k < |versions| && versions[k].hasSourceScan && SanitizeVersion(versions[k].version) == requested
                      && NoneMatches(versions, k, requested)
      case None => NoneMatches(versions, |versions|, requested)
    ensures requested == "" ==>
      match found
      case Some(k) => LatestScanned(lower, versions, |versions|, k)
      case None => forall v :: v in versions ==> !v.hasSourceScan
  {
    hide Newer;
    var best: Option<nat> := None;
    for i := 0 to |versions|
      invariant requested != "" ==> best.None? && NoneMatches(versions, i, requested)
      invariant best.Some? ==> LatestScanned(lower, versions, i, best.value)
      invariant requested == "" && best.None? ==> forall j :: 0 <= j < i ==> !versions[j].hasSourceScan
    {
      var v := versions[i];
      if !v.hasSourceScan {
        continue;
      }
      if requested != "" {
        if SanitizeVersion(v.version) == requested {
          return Some(i);
        }
        continue;
      }
      StrictWeakOrder(lower, v.version, v.version, v.version);
      if best.None? {
        best := Some(i);
      } else {
        var newer := CompareVersionDesc(lower, v.version, versions[best.value].version);
        if newer {
          NewLatestScanned(lower, versions, i, best.value);
          best := Some(i);
        }
      }
    }
    return best;
  }

  lemma {:induction false} NewLatestScanned(lower: Lower, vs: seq<Published>, i: nat, best: nat)
    requires i < |vs| && LatestScanned(lower, vs, i, best) && vs[i].hasSourceScan
    requires Newer(lower, vs[i].version, vs[best].version)
    ensures LatestScanned(lower, vs, i + 1, i)
  {
    hide Newer;
    forall j | 0 <= j < i + 1 && vs[j].hasSourceScan ensures !Newer(lower, vs[j].version, vs[i].version) {
      StrictWeakOrder(lower, vs[j].version, vs[i].version, vs[best].version);
      StrictWeakOrder(lower, vs[i].version, vs[i].version, vs[i].version);
    }
  }

  function Platform(v: Published): string {
    v.os + "/" + v.arch
  }

  predicate Eligible(v: Published, semver: string) {
    v.hasBinaryFindings && (semver == "" || SanitizeVersion(v.version) == semver)
  }

  /** `latest` maps each platform of an eligible version among `vs` to one that no other of the platform beats. */
  ghost predicate LatestPerPlatform(lower: Lower, vs: seq<Published>, semver: string, latest: map<string, Published>) {
    && (forall p :: p in latest ==> latest[p] in vs && Eligible(latest[p], semver) && Platform(latest[p]) == p)
    && (forall v :: v in vs && Eligible(v, semver) ==>
         Platform(v) in latest && !Newer(lower, v.version, latest[Platform(v)].version))
  }

  method LatestByPlatform(lower: Lower, versions: seq<Published>, semver: string) returns (latest: map<string, Published>)
    ensures LatestPerPlatform(lower, versions, semver, latest)
  {
    hide Newer;
    latest := map[];
    for i := 0 to |versions|
      invariant LatestPerPlatform(lower, versions[..i], semver, latest)
    {
      var v := versions[i];
      assert versions[..i + 1] == versions[..i] + [v];
      StrictWeakOrder(lower, v.version, v.version, v.version);
      if Eligible(v, semver) {
        var key := Platform(v);
        if key !in latest {
          latest := latest[key := v];
        } else {
          var newer := CompareVersionDesc(lower, v.version, latest[key].version);
          if newer {
            BetterForPlatform(lower, versions[..i], semver, latest, v);
            latest := latest[key := v];
          }
        }
      }
    }
    assert versions[..|versions|] == versions;
  }

  lemma {:induction false} BetterForPlatform(lower: Lower, vs: seq<Published>, semver: string, latest: map<string, Published>, v: Published)
    requires LatestPerPlatform(lower, vs, semver, latest) && Eligible(v, semver)
    requires Platform(v) in latest && Newer(lower, v.version, latest[Platform(v)].version)
    ensures LatestPerPlatform(lower, vs + [v], semver, latest[Platform(v) := v])
  {
    hide Newer;
    var key := Platform(v);
    var better := latest[key := v];
    forall w | w in vs + [v] && Eligible(w, semver)
      ensures Platform(w) in better && !Newer(lower, w.version, better[Platform(w)].version)
    {
      if Platform(w) == key {
        if w == v {
          StrictWeakOrder(lower, v.version, v.version, v.version);
        } else {
          assert w in vs;
          StrictWeakOrder(lower, w.version, v.version, latest[key].version);
        }
      }
    }
  }
}
