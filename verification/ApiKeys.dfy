/** API keys: verification against the stored digests, and what revocation means over whole runs.
    Digests are what `HashAPIKey` makes of a presented key; an unusable key has none. */
module ApiKeys {
  import opened Wrappers
  import opened SqliteStore

  const ADMIN := "admin"

  /** Whether a presented key opens a route that wants one of these scopes. */
  ghost predicate Accepted(t: Tables, adminDigest: string, digest: Option<string>, scopes: seq<string>) {
    digest.Some? &&
    ((ADMIN in scopes && digest.value == adminDigest)
     || (ApiKeyByDigest(t, digest.value).Success? && ApiKeyByDigest(t, digest.value).value.scope in scopes))
  }

  /** All that using a stored key changes, field by field: the time of last use, in the row with its digest. */
  ghost predicate Uses(t: Tables, t': Tables, digest: Option<string>, now: nat) {
    && t'.devices == t.devices && t'.invitations == t.invitations && t'.apiKeys.Keys == t.apiKeys.Keys
    && forall id :: id in t.apiKeys ==>
         var was, row := t.apiKeys[id], t'.apiKeys[id];
         && row.id == was.id && row.digest == was.digest && row.scope == was.scope && row.revokedAt == was.revokedAt
         && row.lastUsedAt == if digest == Some(was.digest) then Some(now) else was.lastUsedAt
  }

  /** Which keys open a route, row by row: the bootstrap key where admins are admitted, and any stored key that is
      not revoked and whose scope is admitted. */
  lemma AcceptedExactly(t: Tables, adminDigest: string, digest: Option<string>, scopes: seq<string>)
    requires Consistent(t)
    ensures Accepted(t, adminDigest, digest, scopes) <==>
            digest.Some? && (("admin" in scopes && digest.value == adminDigest)
                             || exists id :: id in t.apiKeys && t.apiKeys[id].digest == digest.value
                                             && t.apiKeys[id].revokedAt == None && t.apiKeys[id].scope in scopes)
  {
    forall id | id in t.apiKeys && digest == Some(t.apiKeys[id].digest)
      ensures ApiKeyByDigest(t, digest.value) ==
              if t.apiKeys[id].revokedAt == None then Success(t.apiKeys[id]) else Failure(NoRows)
    {
      LookupsAreExact(t, id);
    }
  }

  method ScopeAllowed(actual: string, allowed: seq<string>) returns (ok: bool)
    ensures ok <==> actual in allowed
  {
    for i := 0 to |allowed|
      invariant actual !in allowed[..i]
    {
      if actual == allowed[i] {
        return true;
      }
    }
    return false;
  }

  /** `verifyAPIKeyScope`: the bootstrap key first, then the table; an accepted stored key is touched. */
  method VerifyApiKeyScope(store: Store, adminDigest: string, digest: Option<string>, scopes: seq<string>, now: nat)
    returns (ok: bool)
    requires Consistent(store.State())
    modifies store
    ensures Consistent(store.State())
    ensures ok <==> Accepted(old(store.State()), adminDigest, digest, scopes)
    ensures var t := old(store.State());
            store.State() == if ok && !(ADMIN in scopes && digest.value == adminDigest)
                             then TouchApiKey(t, ApiKeyByDigest(t, digest.value).value.id, now) else t
    ensures Uses(old(store.State()), store.State(),
                 if ok && !("admin" in scopes && digest.value == adminDigest) then digest else None, now)
  {
    var admin := ScopeAllowed(ADMIN, scopes);
    if admin && digest == Some(adminDigest) {
      return true;
    }
    if digest.None? {
      return false;
    }
    var stored := store.GetApiKeyByDigest(digest.value);
    if stored.Failure? {
      return false;
    }
    var allowed := ScopeAllowed(stored.value.scope, scopes);
    if !allowed {
      return false;
    }
    store.Touch(stored.value.id, now);
    return true;
  }

  // ---------------------------------------------------------------- whole runs

  datatype Step =
    | KeyCreate(id: string, digest: string, scope: string)
    | KeyTouch(id: string, now: nat)
    | KeyRevoke(id: string, now: nat)

  function Apply(t: Tables, step: Step): Tables {
    match step
    case KeyCreate(id, digest, scope) =>
      var r := CreateApiKey(t, ApiKey(id, digest, scope, None, None)); if r.Success? then r.value else t
    case KeyTouch(id, now) => TouchApiKey(t, id, now)
    case KeyRevoke(id, now) => var r := RevokeApiKey(t, id, now); if r.Success? then r.value else t
  }

  /** Any interleaving of key creations, touches and revocations, from any consistent store. */
  function RunFrom(t: Tables, steps: seq<Step>): Tables {
    if steps == [] then t else Apply(RunFrom(t, steps[..|steps| - 1]), steps[|steps| - 1])
  }

  /** When the key is revoked in these steps, unless it was before. */
  function RevokedIn(steps: seq<Step>, id: string): Option<nat> {
    if steps == [] then None
    else
      var before, last := RevokedIn(steps[..|steps| - 1], id), steps[|steps| - 1];
      if before.None? && last.KeyRevoke? && last.id == id then Some(last.now) else before
  }

  /** When the key is last used in these steps. */
  function UsedIn(steps: seq<Step>, id: string): Option<nat> {
    if steps == [] then None
    else
      var last := steps[|steps| - 1];
      if last.KeyTouch? && last.id == id then Some(last.now) else UsedIn(steps[..|steps| - 1], id)
  }

  /** The whole row of a key after any run, field by field: its id, digest and scope never change, it is revoked
      at the first revocation of it and used at the last use of it, and no other step matters. */
  lemma {:induction false} RowAfter(t: Tables, steps: seq<Step>, id: string)
    requires id in t.apiKeys
    ensures id in RunFrom(t, steps).apiKeys
    ensures var was, row := t.apiKeys[id], RunFrom(t, steps).apiKeys[id];
            && row.id == was.id && row.digest == was.digest && row.scope == was.scope
            && row.revokedAt == (if was.revokedAt.Some? then was.revokedAt else RevokedIn(steps, id))
            && row.lastUsedAt == if UsedIn(steps, id).Some? then UsedIn(steps, id) else was.lastUsedAt
  {
    if steps != [] {
      RowAfter(t, steps[..|steps| - 1], id);
    }
  }

  /** A key that is created with a scope, and not revoked since, opens after any run exactly the routes that admit
      this scope, and those of the bootstrap key if it is that key. */
  lemma CreatedKeyKeepsItsScope(t: Tables, id: string, digest: string, scope: string, steps: seq<Step>,
                                adminDigest: string, scopes: seq<string>)
    requires Consistent(t) && id !in t.apiKeys && forall k :: k in t.apiKeys ==> t.apiKeys[k].digest != digest
    requires forall j :: 0 <= j < |steps| ==> !(steps[j].KeyRevoke? && steps[j].id == id)
    ensures Accepted(RunFrom(Apply(t, KeyCreate(id, digest, scope)), steps), adminDigest, Some(digest), scopes) <==>
            scope in scopes || ("admin" in scopes && digest == adminDigest)
  {
    var created := Apply(t, KeyCreate(id, digest, scope));
    RunsStayConsistent(created, steps);
    RowAfter(created, steps, id);
    NeverRevoked(steps, id);
    LookupsAreExact(RunFrom(created, steps), id);
  }

  lemma {:induction false} NeverRevoked(steps: seq<Step>, id: string)
    requires forall j :: 0 <= j < |steps| ==> !(steps[j].KeyRevoke? && steps[j].id == id)
    ensures RevokedIn(steps, id) == None
  {
    if steps != [] {
      NeverRevoked(steps[..|steps| - 1], id);
    }
  }

  /** A key whose id or digest is taken is not created, and nothing else makes a row. */
  lemma RowsAreCreated(t: Tables, step: Step, id: string)
    requires id !in t.apiKeys
    ensures id in Apply(t, step).apiKeys <==>
            step.KeyCreate? && step.id == id && forall k :: k in t.apiKeys ==> t.apiKeys[k].digest != step.digest
    ensures id in Apply(t, step).apiKeys ==>
              var row := Apply(t, step).apiKeys[id];
              && row.id == id && row.digest == step.digest && row.scope == step.scope
              && row.lastUsedAt == None && row.revokedAt == None
    ensures Apply(t, step).devices == t.devices && Apply(t, step).invitations == t.invitations
  {
  }

  predicate Revoked(t: Tables, id: string) {
    id in t.apiKeys && t.apiKeys[id].revokedAt.Some?
  }

  lemma {:induction false} RunsStayConsistent(t: Tables, steps: seq<Step>)
    requires Consistent(t)
    ensures Consistent(RunFrom(t, steps))
  {
    if steps != [] {
      RunsStayConsistent(t, steps[..|steps| - 1]);
    }
  }

  lemma {:induction false} RevokedStays(t: Tables, steps: seq<Step>, id: string)
    requires Revoked(t, id)
    ensures Revoked(RunFrom(t, steps), id) && RunFrom(t, steps).apiKeys[id].digest == t.apiKeys[id].digest
  {
    if steps != [] {
      RevokedStays(t, steps[..|steps| - 1], id);
    }
  }

  /** Revocation is permanent: after any further run no row but the revoked one carries its digest, and
      the key opens a route only if it happens to be the bootstrap key and the route admits that one. */
  lemma RevocationIsPermanent(t: Tables, steps: seq<Step>, id: string, adminDigest: string, scopes: seq<string>)
    requires Consistent(t) && Revoked(t, id)
    ensures var t' := RunFrom(t, steps); var digest := t.apiKeys[id].digest;
            && (forall k :: k in t'.apiKeys && t'.apiKeys[k].digest == digest ==> k == id)
            && (Accepted(t', adminDigest, Some(digest), scopes) <==> ADMIN in scopes && digest == adminDigest)
  {
    RunsStayConsistent(t, steps);
    RevokedStays(t, steps, id);
    LookupsAreExact(RunFrom(t, steps), id);
  }

  predicate Revokes(t: Tables, step: Step, id: string) {
    step.KeyRevoke? && step.id == id && RevokeApiKey(t, id, step.now).Success?
  }

  /** Each key is revoked successfully at most once in a run. */
  lemma RevokedOnce(t: Tables, steps: seq<Step>, i: nat, j: nat, id: string)
    requires i < j < |steps|
    requires Revokes(RunFrom(t, steps[..i]), steps[i], id)
    ensures !Revokes(RunFrom(t, steps[..j]), steps[j], id)
  {
    var first := steps[..i + 1];
    assert first[..i] == steps[..i];
    RunFromSplit(t, steps[..j], i + 1);
    assert steps[..j][..i + 1] == first;
    RevokedStays(RunFrom(t, first), steps[..j][i + 1..], id);
  }

  lemma {:induction false} RunFromSplit(t: Tables, steps: seq<Step>, n: nat)
    requires n <= |steps|
    ensures RunFrom(t, steps) == RunFrom(RunFrom(t, steps[..n]), steps[n..])
  {
    if n == |steps| {
      assert steps[..n] == steps;
    } else {
      var m := |steps| - 1;
      RunFromSplit(t, steps[..m], n);
      assert steps[..m][..n] == steps[..n];
      assert steps[n..][..|steps[n..]| - 1] == steps[..m][n..];
    }
  }

  /** Until it is revoked, a stored key opens exactly the routes that admit its scope (or the bootstrap
      key's, if it is that key). */
  lemma StoredKeyOpensItsScope(t: Tables, id: string, adminDigest: string, scopes: seq<string>)
    requires Consistent(t) && id in t.apiKeys && !Revoked(t, id)
    ensures Accepted(t, adminDigest, Some(t.apiKeys[id].digest), scopes) <==>
            t.apiKeys[id].scope in scopes || (ADMIN in scopes && t.apiKeys[id].digest == adminDigest)
  {
    LookupsAreExact(t, id);
  }
}
