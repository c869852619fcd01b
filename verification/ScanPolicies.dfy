/**
  Optimistic concurrency of ScanPolicy writes. The handlers read an object, check that the caller
  may manage it, and write with the caller's version token; other clients may write in between.
 */
module ScanPolicies {
  import opened Basics
  import opened Strings

  datatype Target = Target(kind: string, name: string)
  datatype Policy = Policy(name: string, namespace: string, resourceVersion: string, hasSelector: bool, targets: seq<Target>)

  // ------------------------------------------------------------------ the API server

  datatype Key = Key(namespace: string, name: string)
  datatype Stored = Stored(policy: Policy, version: nat)

  /** Every write takes the next version; `clock` is the last one handed out. */
  datatype Store = Store(objects: map<Key, Stored>, clock: nat)

  ghost predicate WellFormed(s: Store) {
    forall k :: k in s.objects ==> s.objects[k].version <= s.clock
  }

  /** A write some client completes. */
  datatype Write = Put(key: Key, policy: Policy) | Remove(key: Key)

  function Apply(s: Store, w: Write): Store {
    match w
    case Put(k, p) => Store(s.objects[k := Stored(p, s.clock + 1)], s.clock + 1)
    case Remove(k) => Store(s.objects - {k}, s.clock + 1)
  }

  function ApplyAll(s: Store, ws: seq<Write>): Store
    decreases |ws|
  {
    if ws == [] then s else ApplyAll(Apply(s, ws[0]), ws[1..])
  }

  /** How versions are written as tokens; different versions get different tokens. */
  type Render = nat -> string

  ghost predicate Injective(render: Render) {
    forall a, b :: render(a) == render(b) ==> a == b
  }

  /** The object under `key` exists with exactly this token. */
  predicate Matches(s: Store, key: Key, token: string, render: Render) {
    key in s.objects && render(s.objects[key].version) == token
  }

  // ------------------------------------------------------------------ authorization

  datatype Binding = Binding(namespaces: seq<string>, namespaceWide: bool, allows: (string, string) -> bool)

  /** Without a verifier every request is authorized. */
  datatype Caller = Caller(verified: bool, binding: Option<Binding>, lower: string -> string)

  predicate NamespaceAuthorized(c: Caller, namespace: string) {
    !c.verified || (c.binding.Some? && ("*" in c.binding.value.namespaces || namespace in c.binding.value.namespaces))
  }

  /** Namespace-wide policies need the matching right; other policies need every target allowed. */
  predicate ScopeAuthorized(c: Caller, namespace: string, p: Policy) {
    !c.verified || (NamespaceAuthorized(c, namespace) &&
      if p.hasSelector || p.targets == [] then c.binding.value.namespaceWide
      else forall t :: t in p.targets ==> c.binding.value.allows(c.lower(t.kind), t.name))
  }

  method CheckNamespace(c: Caller, namespace: string) returns (ok: bool)
    ensures ok == NamespaceAuthorized(c, namespace)
  {
    if !c.verified {
      return true;
    }
    if c.binding.None? {
      return false;
    }
    var allowed := c.binding.value.namespaces;
    for i := 0 to |allowed|
      invariant "*" !in allowed[..i] && namespace !in allowed[..i]
    {
      if allowed[i] == "*" || allowed[i] == namespace {
        return true;
      }
    }
    return false;
  }

  method CheckScope(c: Caller, namespace: string, p: Policy) returns (ok: bool)
    ensures ok == ScopeAuthorized(c, namespace, p)
  {
    if !c.verified {
      return true;
    }
    var inNamespace := CheckNamespace(c, namespace);
    if !inNamespace {
      return false;
    }
    if p.hasSelector || |p.targets| == 0 {
      return c.binding.value.namespaceWide;
    }
    for i := 0 to |p.targets|
      invariant forall t :: t in p.targets[..i] ==> c.binding.value.allows(c.lower(t.kind), t.name)
    {
      if !c.binding.value.allows(c.lower(p.targets[i].kind), p.targets[i].name) {
        return false;
      }
    }
    return true;
  }

  // ------------------------------------------------------------------ the handlers

  function TrimQuotesLeft(s: string): string {
    if s != "" && s[0] == '"' then TrimQuotesLeft(s[1..]) else s
  }

  function TrimQuotes(s: string): string
    decreases |TrimQuotesLeft(s)|
  {
    TrimQuotesRight(TrimQuotesLeft(s))
  }

  function TrimQuotesRight(s: string): string {
    if s != "" && s[|s| - 1] == '"' then TrimQuotesRight(s[..|s| - 1]) else s
  }

  /** The token of an If-Match header; a missing header and the wildcard are refused. */
  function RequireIfMatch(header: string): Option<string> {
    var value := TrimQuotes(TrimSpace(header));
    if value == "" || value == "*" then None else Some(value)
  }

  datatype Status = Success | BadRequest | Forbidden | NotFound | Conflict | PreconditionRequired

  /** `body` is absent when it cannot be decoded or is invalid; `targetsOnboarded` is the target check's verdict. */
  datatype Request = Request(key: Key, ifMatch: string, body: Option<Policy>, targetsOnboarded: bool)

  /** The checks made before the stored object is read. */
  function CheckUpdate(r: Request): (refused: Option<Status>)
    ensures refused != Some(Success)
    ensures refused.None? ==> RequireIfMatch(r.ifMatch).Some? && r.body.Some?
  {
    var token := RequireIfMatch(r.ifMatch);
    if token.None? then Some(PreconditionRequired)
    else if r.body.None? then Some(BadRequest)
    else
      var p := r.body.value;
      if p.name != "" && p.name != r.key.name then Some(BadRequest)
      else if p.resourceVersion == "" || p.resourceVersion != token.value then Some(Conflict)
      else if !r.targetsOnboarded then Some(BadRequest)
      else None
  }

  function Replacement(r: Request): Policy
    requires r.body.Some?
  {
    r.body.value.(name := r.key.name, namespace := r.key.namespace)
  }

  class ApiServer {
    var store: Store
    const render: Render

    constructor (store: Store, render: Render)
      ensures this.store == store && this.render == render
    {
      this.store, this.render := store, render;
    }

    /** Other clients' writes between two steps of a handler. */
    method Others(writes: seq<Write>)
      modifies this
      ensures store == ApplyAll(old(store), writes)
    {
      assert writes[0..] == writes;
      for i := 0 to |writes|
        invariant ApplyAll(store, writes[i..]) == ApplyAll(old(store), writes)
      {
        assert writes[i..][1..] == writes[i + 1..];
        store := Apply(store, writes[i]);
      }
    }

    method Get(key: Key) returns (found: Option<Stored>)
      ensures found == if key in store.objects then Some(store.objects[key]) else None
    {
      found := if key in store.objects then Some(store.objects[key]) else None;
    }

    /** Replaces the object only when its version is the one the new object names. */
    method Replace(key: Key, p: Policy) returns (status: Status)
      modifies this
      ensures store == if Matches(old(store), key, p.resourceVersion, render) then Apply(old(store), Put(key, p)) else old(store)
      ensures status == if key !in old(store).objects then NotFound
                        else if Matches(old(store), key, p.resourceVersion, render) then Success else Conflict
    {
      if key !in store.objects {
        return NotFound;
      }
      if render(store.objects[key].version) != p.resourceVersion {
        return Conflict;
      }
      store := Apply(store, Put(key, p));
      return Success;
    }

    /** Removes the object only when its version is `token`. */
    method Delete(key: Key, token: string) returns (status: Status)
      modifies this
      ensures store == if Matches(old(store), key, token, render) then Apply(old(store), Remove(key)) else old(store)
      ensures status == if key !in old(store).objects then NotFound
                        else if Matches(old(store), key, token, render) then Success else Conflict
    {
      if key !in store.objects {
        return NotFound;
      }
      if render(store.objects[key].version) != token {
        return Conflict;
      }
      store := Apply(store, Remove(key));
      return Success;
    }
  }

  /** A status, and the store when the handler is done. */
  datatype Run = Run(status: Status, store: Store)

  /** An update whose request meets `start`: `before` and `between` are other clients' writes around the read. */
  function UpdateRun(c: Caller, r: Request, start: Store, before: seq<Write>, between: seq<Write>, render: Render): Run {
    var refused := CheckUpdate(r);
    var read := ApplyAll(start, before);
    var write := ApplyAll(read, between);
    if refused.Some? then Run(refused.value, start)
    else if r.key !in read.objects then Run(NotFound, read)
    else if !ScopeAuthorized(c, r.key.namespace, read.objects[r.key].policy) then Run(Forbidden, read)
    else if !ScopeAuthorized(c, r.key.namespace, Replacement(r)) then Run(Forbidden, read)
    else if r.key !in write.objects then Run(NotFound, write)
    else if !Matches(write, r.key, RequireIfMatch(r.ifMatch).value, render) then Run(Conflict, write)
    else Run(Success, Apply(write, Put(r.key, Replacement(r))))
  }

  function DeleteRun(c: Caller, r: Request, start: Store, before: seq<Write>, between: seq<Write>, render: Render): Run {
    var token := RequireIfMatch(r.ifMatch);
    var read := ApplyAll(start, before);
    var write := ApplyAll(read, between);
    if r.key.name == "" then Run(BadRequest, start)
    else if token.None? then Run(PreconditionRequired, start)
    else if r.key !in read.objects then Run(NotFound, read)
    else if !ScopeAuthorized(c, r.key.namespace, read.objects[r.key].policy) then Run(Forbidden, read)
    else if r.key !in write.objects then Run(NotFound, write)
    else if !Matches(write, r.key, token.value, render) then Run(Conflict, write)
    else Run(Success, Apply(write, Remove(r.key)))
  }

  method HandleUpdate(server: ApiServer, c: Caller, r: Request, before: seq<Write>, between: seq<Write>) returns (status: Status)
    modifies server
    ensures Run(status, server.store) == UpdateRun(c, r, old(server.store), before, between, server.render)
  {
    hide RequireIfMatch, ScopeAuthorized;
    var token := RequireIfMatch(r.ifMatch);
    if token.None? {
      return PreconditionRequired;
    }
    if r.body.None? {
      return BadRequest;
    }
    var policy := r.body.value;
    if policy.name != "" && policy.name != r.key.name {
      return BadRequest;
    }
    if policy.resourceVersion == "" || policy.resourceVersion != token.value {
      return Conflict;
    }
    policy := policy.(name := r.key.name, namespace := r.key.namespace);
    if !r.targetsOnboarded {
      return BadRequest;
    }
    server.Others(before);
    var existing := server.Get(r.key);
    if existing.None? {
      return NotFound;
    }
    var oldAllowed := CheckScope(c, r.key.namespace, existing.value.policy);
    var newAllowed := CheckScope(c, r.key.namespace, policy);
    if !oldAllowed || !newAllowed {
      return Forbidden;
    }
    server.Others(between);
    status := server.Replace(r.key, policy);
  }

  method HandleDelete(server: ApiServer, c: Caller, r: Request, before: seq<Write>, between: seq<Write>) returns (status: Status)
    modifies server
    ensures Run(status, server.store) == DeleteRun(c, r, old(server.store), before, between, server.render)
  {
    hide RequireIfMatch, ScopeAuthorized;
    if r.key.name == "" {
      return BadRequest;
    }
    var token := RequireIfMatch(r.ifMatch);
    if token.None? {
      return PreconditionRequired;
    }
    server.Others(before);
    var existing := server.Get(r.key);
    if existing.None? {
      return NotFound;
    }
    var allowed := CheckScope(c, r.key.namespace, existing.value.policy);
    if !allowed {
      return Forbidden;
    }
    server.Others(between);
    status := server.Delete(r.key, token.value);
  }

  // ------------------------------------------------------------------ safety over every interleaving

  /** Writes keep versions within the clock, and an object of an old version is still the same object. */
  lemma {:induction false} OldVersionUnchanged(s: Store, ws: seq<Write>, key: Key)
    requires WellFormed(s)
    ensures WellFormed(ApplyAll(s, ws)) && s.clock <= ApplyAll(s, ws).clock
    ensures var after := ApplyAll(s, ws);
            key in after.objects && after.objects[key].version <= s.clock ==>
              key in s.objects && s.objects[key] == after.objects[key]
    decreases |ws|
  {
    if ws != [] {
      OldVersionUnchanged(Apply(s, ws[0]), ws[1..], key);
    }
  }

  /** The token was handed out by the store at or before `s`. */
  ghost predicate IssuedBy(s: Store, token: string, render: Render) {
    exists v: nat :: v <= s.clock && render(v) == token
  }

  /**
    A write that goes through replaces or removes exactly the object that was read and
    scope-checked if and only if the caller's token had been issued by the time of the read.
   */
  lemma {:induction false} WriteHitsReadObjectIff(read: Store, between: seq<Write>, key: Key, token: string, render: Render)
    requires WellFormed(read) && Injective(render) && key in read.objects
    requires Matches(ApplyAll(read, between), key, token, render)
    ensures ApplyAll(read, between).objects[key] == read.objects[key] <==> IssuedBy(read, token, render)
  {
    OldVersionUnchanged(read, between, key);
    var version := ApplyAll(read, between).objects[key].version;
    if IssuedBy(read, token, render) {
      var v: nat :| v <= read.clock && render(v) == token;
      assert render(v) == render(version);
    }
  }

  /** A token that is guessed before it is issued can hit an object the handler never looked at. */
  lemma {:induction false} GuessedTokenHitsAnother(key: Key, read: Policy, unseen: Policy, render: Render)
    requires read != unseen && Injective(render)
    ensures var start := Store(map[key := Stored(read, 1)], 1);
            var write := ApplyAll(start, [Put(key, unseen)]);
            Matches(write, key, render(2), render) && write.objects[key].policy == unseen
  {
    var start := Store(map[key := Stored(read, 1)], 1);
    var w := Put(key, unseen);
    assert [w][1..] == [];
    assert ApplyAll(Apply(start, w), []) == Apply(start, w);
  }

  /** With a token issued before the request, a successful update replaces the object that was read. */
  lemma {:induction false} UpdateIsSafe(c: Caller, r: Request, start: Store, before: seq<Write>, between: seq<Write>, render: Render)
    requires WellFormed(start) && Injective(render)
    requires RequireIfMatch(r.ifMatch).Some? && IssuedBy(start, RequireIfMatch(r.ifMatch).value, render)
    requires UpdateRun(c, r, start, before, between, render).status == Success
    ensures var read := ApplyAll(start, before);
            var write := ApplyAll(read, between);
            && r.key in start.objects && r.key in read.objects && r.key in write.objects
            && write.objects[r.key] == read.objects[r.key] == start.objects[r.key]
            && ScopeAuthorized(c, r.key.namespace, write.objects[r.key].policy)
  {
    hide RequireIfMatch, ScopeAuthorized, CheckUpdate;
    var read := ApplyAll(start, before);
    var token := RequireIfMatch(r.ifMatch).value;
    IssuedEarlier(start, before, r.key, token, render);
    WriteHitsReadObjectIff(read, between, r.key, token, render);
    IssuedStillThere(start, before, r.key, token, render);
  }

  lemma {:induction false} DeleteIsSafe(c: Caller, r: Request, start: Store, before: seq<Write>, between: seq<Write>, render: Render)
    requires WellFormed(start) && Injective(render)
    requires RequireIfMatch(r.ifMatch).Some? && IssuedBy(start, RequireIfMatch(r.ifMatch).value, render)
    requires DeleteRun(c, r, start, before, between, render).status == Success
    ensures var read := ApplyAll(start, before);
            var write := ApplyAll(read, between);
            && r.key in start.objects && r.key in read.objects && r.key in write.objects
            && write.objects[r.key] == read.objects[r.key] == start.objects[r.key]
            && ScopeAuthorized(c, r.key.namespace, write.objects[r.key].policy)
  {
    hide RequireIfMatch, ScopeAuthorized;
    var read := ApplyAll(start, before);
    var token := RequireIfMatch(r.ifMatch).value;
    IssuedEarlier(start, before, r.key, token, render);
    WriteHitsReadObjectIff(read, between, r.key, token, render);
    IssuedStillThere(start, before, r.key, token, render);
  }

  // ------------------------------------------------------------------ what the handlers do, and for whom

  /** Text that neither begins nor ends with a space or a quote. */
  predicate Unquoted(t: string) {
    t != "" && !IsSpace(t[0]) && !IsSpace(t[|t| - 1]) && t[0] != '"' && t[|t| - 1] != '"'
  }

  /** The header names a token with or without quotes; without a token, and with the wildcard, it is refused. */
  lemma {:induction false} IfMatchToken(t: string)
    requires Unquoted(t)
    ensures RequireIfMatch(t) == RequireIfMatch("\"" + t + "\"") == if t == "*" then None else Some(t)
    ensures RequireIfMatch("").None?
  {
    var q := "\"" + t + "\"";
    assert !IsSpace('"');
    assert TrimSpace(t) == t && TrimQuotes(t) == t;
    assert q[0] == '"' && q[|q| - 1] == '"' && TrimSpace(q) == q;
    var left := t + "\"";
    assert q[1..] == left && left[0] == t[0] && TrimQuotesLeft(q) == left;
    assert left[..|left| - 1] == t && TrimQuotesRight(t) == t && TrimQuotesRight(left) == t;
  }

  /** The caller's group lists the namespace or all of them. */
  ghost predicate ManagesNamespace(b: Binding, namespace: string) {
    exists i :: 0 <= i < |b.namespaces| && (b.namespaces[i] == "*" || b.namespaces[i] == namespace)
  }

  /** The right to all targets of the namespace, or to each that the policy names. */
  ghost predicate ManagesTargets(c: Caller, b: Binding, p: Policy) {
    && (p.hasSelector || |p.targets| == 0 ==> b.namespaceWide)
    && (!p.hasSelector ==> |p.targets| > 0 ==> forall i :: 0 <= i < |p.targets| ==> b.allows(c.lower(p.targets[i].kind), p.targets[i].name))
  }

  /** Who may manage a policy: everyone without verification, and otherwise a group with these rights. */
  lemma {:induction false} ScopeAuthorizedIff(c: Caller, namespace: string, p: Policy)
    ensures ScopeAuthorized(c, namespace, p) <==>
      (c.verified ==> c.binding.Some? && ManagesNamespace(c.binding.value, namespace) && ManagesTargets(c, c.binding.value, p))
  {
    if c.verified && c.binding.Some? {
      var b := c.binding.value;
      if ManagesTargets(c, b, p) && !p.hasSelector && p.targets != [] {
        forall t | t in p.targets ensures b.allows(c.lower(t.kind), t.name) {
          var i :| 0 <= i < |p.targets| && p.targets[i] == t;
        }
      }
    }
  }

  /** The objects other than `key` are the same. */
  ghost predicate OthersKept(now: Store, was: Store, key: Key) {
    forall k :: k != key ==> (k in now.objects <==> k in was.objects) && (k in was.objects ==> now.objects[k] == was.objects[k])
  }

  /** The contents of the body under the name and namespace of the URL. */
  ghost predicate IsReplacement(p: Policy, body: Policy, key: Key) {
    && p.name == key.name && p.namespace == key.namespace
    && p.hasSelector == body.hasSelector && p.targets == body.targets && p.resourceVersion == body.resourceVersion
  }

  /**
    For every interleaving, an update succeeds exactly when the request is sound, the policy that was read
    and the policy that is to be stored may both be managed, and the token is current at the write. It then
    stores the body under the key of the request and nothing else; otherwise it stores nothing.
   */
  lemma {:induction false} UpdateEffect(c: Caller, r: Request, start: Store, before: seq<Write>, between: seq<Write>, render: Render)
    ensures var run := UpdateRun(c, r, start, before, between, render);
      var read := ApplyAll(start, before);
      var write := ApplyAll(read, between);
      && (run.status == Success <==>
           && RequireIfMatch(r.ifMatch).Some? && r.body.Some? && r.targetsOnboarded
           && r.body.value.name in {"", r.key.name}
           && r.body.value.resourceVersion == RequireIfMatch(r.ifMatch).value != ""
           && r.key in read.objects
           && ScopeAuthorized(c, r.key.namespace, read.objects[r.key].policy)
           && (exists p :: IsReplacement(p, r.body.value, r.key) && ScopeAuthorized(c, r.key.namespace, p))
           && Matches(write, r.key, r.body.value.resourceVersion, render))
      && (run.status == Success ==>
           && r.key in run.store.objects && IsReplacement(run.store.objects[r.key].policy, r.body.value, r.key)
           && ScopeAuthorized(c, r.key.namespace, run.store.objects[r.key].policy)
           && run.store.objects[r.key].version == write.clock + 1 == run.store.clock
           && OthersKept(run.store, write, r.key))
      && (run.status != Success ==> run.store in {start, read, write})
  {
    hide RequireIfMatch, ScopeAuthorized;
    if r.body.Some? {
      ReplacementIsOne(c, r);
    }
  }

  lemma {:induction false} ReplacementIsOne(c: Caller, r: Request)
    requires r.body.Some?
    ensures IsReplacement(Replacement(r), r.body.value, r.key)
    ensures forall p :: IsReplacement(p, r.body.value, r.key) ==> p == Replacement(r)
  {
  }

  /** Likewise for a removal. */
  lemma {:induction false} DeleteEffect(c: Caller, r: Request, start: Store, before: seq<Write>, between: seq<Write>, render: Render)
    ensures var run := DeleteRun(c, r, start, before, between, render);
      var read := ApplyAll(start, before);
      var write := ApplyAll(read, between);
      && (run.status == Success <==>
           && r.key.name != "" && RequireIfMatch(r.ifMatch).Some?
           && r.key in read.objects && ScopeAuthorized(c, r.key.namespace, read.objects[r.key].policy)
           && Matches(write, r.key, RequireIfMatch(r.ifMatch).value, render))
      && (run.status == Success ==> r.key !in run.store.objects && OthersKept(run.store, write, r.key))
      && (run.status != Success ==> run.store in {start, read, write})
  {
    hide RequireIfMatch, ScopeAuthorized;
  }

  lemma {:induction false} IssuedEarlier(start: Store, before: seq<Write>, key: Key, token: string, render: Render)
    requires WellFormed(start) && IssuedBy(start, token, render)
    ensures WellFormed(ApplyAll(start, before)) && IssuedBy(ApplyAll(start, before), token, render)
  {
    OldVersionUnchanged(start, before, key);
    var v: nat :| v <= start.clock && render(v) == token;
    assert v <= ApplyAll(start, before).clock;
  }

  lemma {:induction false} IssuedStillThere(start: Store, before: seq<Write>, key: Key, token: string, render: Render)
    requires WellFormed(start) && Injective(render) && IssuedBy(start, token, render)
    ensures Matches(ApplyAll(start, before), key, token, render) ==>
      key in start.objects && start.objects[key] == ApplyAll(start, before).objects[key]
  {
    OldVersionUnchanged(start, before, key);
    var v: nat :| v <= start.clock && render(v) == token;
  }
}
