/** The SQLite tables that enrolment and authentication use, with their key constraints. One statement is
    one atomic step: the pool holds a single connection. */
module SqliteStore {
  import opened Wrappers
  import opened Models

  datatype Invitation = Invitation(id: string, tokenHash: string, userId: string, groupId: string,
                                   reusable: bool, expiresAt: nat, usedAt: Option<nat>)

  datatype ApiKey = ApiKey(id: string, digest: string, scope: string, lastUsedAt: Option<nat>, revokedAt: Option<nat>)

  datatype Tables = Tables(devices: map<string, Device>, invitations: map<string, Invitation>,
                           apiKeys: map<string, ApiKey>)

  const EMPTY := Tables(map[], map[], map[])

  datatype Error = Constraint | NoRows

  // ---------------------------------------------------------------- the statements

  function CreateDevice(t: Tables, d: Device): Result<Tables, Error> {
    if d.id in t.devices || exists id :: id in t.devices && t.devices[id].virtualIP == d.virtualIP
    then Failure(Constraint)
    else Success(t.(devices := t.devices[d.id := d]))
  }

  function DeleteDevice(t: Tables, id: string): Result<Tables, Error> {
    if id in t.devices then Success(t.(devices := t.devices - {id})) else Failure(NoRows)
  }

  function CreateInvitation(t: Tables, inv: Invitation): Result<Tables, Error> {
    if inv.id in t.invitations || exists id :: id in t.invitations && t.invitations[id].tokenHash == inv.tokenHash
    then Failure(Constraint)
    else Success(t.(invitations := t.invitations[inv.id := inv]))
  }

  ghost function InvitationByHash(t: Tables, hash: string): Result<Invitation, Error> {
    if id :| id in t.invitations && t.invitations[id].tokenHash == hash then Success(t.invitations[id])
        else Failure(NoRows)
  }

  /** An update that matches no row is not an error here. */
  function MarkInvitationUsed(t: Tables, id: string, now: nat): Tables {
    if id in t.invitations then t.(invitations := t.invitations[id := t.invitations[id].(usedAt := Some(now))]) else t
  }

  function CreateApiKey(t: Tables, k: ApiKey): Result<Tables, Error> {
    if k.id in t.apiKeys || exists id :: id in t.apiKeys && t.apiKeys[id].digest == k.digest then Failure(Constraint)
    else Success(t.(apiKeys := t.apiKeys[k.id := k]))
  }

  predicate Accepts(k: ApiKey, digest: string) {
    k.digest == digest && k.revokedAt == None
  }

  ghost function ApiKeyByDigest(t: Tables, digest: string): Result<ApiKey, Error> {
    if id :| id in t.apiKeys && Accepts(t.apiKeys[id], digest) then Success(t.apiKeys[id]) else Failure(NoRows)
  }

  function TouchApiKey(t: Tables, id: string, now: nat): Tables {
    if id in t.apiKeys then t.(apiKeys := t.apiKeys[id := t.apiKeys[id].(lastUsedAt := Some(now))]) else t
  }

  function RevokeApiKey(t: Tables, id: string, now: nat): Result<Tables, Error> {
    if id in t.apiKeys && t.apiKeys[id].revokedAt == None then
      Success(t.(apiKeys := t.apiKeys[id := t.apiKeys[id].(revokedAt := Some(now))]))
    else Failure(NoRows)
  }

  // ---------------------------------------------------------------- the constraints

  ghost predicate Consistent(t: Tables) {
    && (forall id :: id in t.devices ==> t.devices[id].id == id)
    && (forall i, j :: i in t.devices && j in t.devices && i != j ==> t.devices[i].virtualIP != t.devices[j].virtualIP)
    && (forall id :: id in t.invitations ==> t.invitations[id].id == id)
    && (forall i, j :: i in t.invitations && j in t.invitations && i != j ==>
        t.invitations[i].tokenHash != t.invitations[j].tokenHash)
    && (forall id :: id in t.apiKeys ==> t.apiKeys[id].id == id)
    && (forall i, j :: i in t.apiKeys && j in t.apiKeys && i != j ==> t.apiKeys[i].digest != t.apiKeys[j].digest)
  }

  /** The look-ups find the row with that hash, if there is one. */
  lemma LookupsAreExact(t: Tables, id: string)
    requires Consistent(t)
    ensures id in t.invitations ==> InvitationByHash(t, t.invitations[id].tokenHash) == Success(t.invitations[id])
    ensures id in t.apiKeys ==>
              ApiKeyByDigest(t, t.apiKeys[id].digest) == if t.apiKeys[id].revokedAt == None
                  then Success(t.apiKeys[id]) else Failure(NoRows)
  {
  }

  // ---------------------------------------------------------------- the store

  class Store {
    var devices: map<string, Device>
    var invitations: map<string, Invitation>
    var apiKeys: map<string, ApiKey>

    ghost function State(): Tables
      reads this
    {
      Tables(devices, invitations, apiKeys)
    }

    constructor ()
      ensures State() == EMPTY && Consistent(State())
    {
      devices, invitations, apiKeys := map[], map[], map[];
    }

    method AddDevice(d: Device) returns (err: Option<Error>)
      requires Consistent(State())
      modifies `devices
      ensures Consistent(State())
      ensures CreateDevice(old(State()), d) == if err.None? then Success(State()) else Failure(err.value)
      ensures err.Some? ==> State() == old(State())
    {
      if d.id in devices || exists id :: id in devices && devices[id].virtualIP == d.virtualIP {
        return Some(Constraint);
      }
      devices := devices[d.id := d];
      return None;
    }

    method RemoveDevice(id: string) returns (err: Option<Error>)
      requires Consistent(State())
      modifies `devices
      ensures Consistent(State())
      ensures DeleteDevice(old(State()), id) == if err.None? then Success(State()) else Failure(err.value)
      ensures err.Some? ==> State() == old(State())
    {
      var affected := if id in devices then 1 else 0;
      devices := devices - {id};
      return if affected == 0 then Some(NoRows) else None;
    }

    method AddInvitation(inv: Invitation) returns (err: Option<Error>)
      requires Consistent(State())
      modifies `invitations
      ensures Consistent(State())
      ensures CreateInvitation(old(State()), inv) == if err.None? then Success(State()) else Failure(err.value)
      ensures err.Some? ==> State() == old(State())
    {
      if inv.id in invitations || exists id :: id in invitations && invitations[id].tokenHash == inv.tokenHash {
        return Some(Constraint);
      }
      invitations := invitations[inv.id := inv];
      return None;
    }

    method GetInvitationByTokenHash(hash: string) returns (row: Result<Invitation, Error>)
      requires Consistent(State())
      ensures row == InvitationByHash(State(), hash)
    {
      var todo := invitations.Keys;
      while todo != {}
        invariant todo <= invitations.Keys
        invariant forall id :: id in invitations && id !in todo ==> invitations[id].tokenHash != hash
        decreases todo
      {
        var id :| id in todo;
        if invitations[id].tokenHash == hash {
          LookupsAreExact(State(), id);
          return Success(invitations[id]);
        }
        todo := todo - {id};
      }
      return Failure(NoRows);
    }

    method MarkUsed(id: string, now: nat)
      requires Consistent(State())
      modifies `invitations
      ensures Consistent(State()) && State() == MarkInvitationUsed(old(State()), id, now)
    {
      if id in invitations {
        invitations := invitations[id := invitations[id].(usedAt := Some(now))];
      }
    }

    method AddApiKey(k: ApiKey) returns (err: Option<Error>)
      requires Consistent(State())
      modifies `apiKeys
      ensures Consistent(State())
      ensures CreateApiKey(old(State()), k) == if err.None? then Success(State()) else Failure(err.value)
      ensures err.Some? ==> State() == old(State())
    {
      if k.id in apiKeys || exists id :: id in apiKeys && apiKeys[id].digest == k.digest {
        return Some(Constraint);
      }
      apiKeys := apiKeys[k.id := k];
      return None;
    }

    method GetApiKeyByDigest(digest: string) returns (row: Result<ApiKey, Error>)
      requires Consistent(State())
      ensures row == ApiKeyByDigest(State(), digest)
    {
      var todo := apiKeys.Keys;
      while todo != {}
        invariant todo <= apiKeys.Keys
        invariant forall id :: id in apiKeys && id !in todo ==> !Accepts(apiKeys[id], digest)
        decreases todo
      {
        var id :| id in todo;
        if Accepts(apiKeys[id], digest) {
          LookupsAreExact(State(), id);
          return Success(apiKeys[id]);
        }
        todo := todo - {id};
      }
      return Failure(NoRows);
    }

    method Touch(id: string, now: nat)
      requires Consistent(State())
      modifies `apiKeys
      ensures Consistent(State()) && State() == TouchApiKey(old(State()), id, now)
    {
      if id in apiKeys {
        apiKeys := apiKeys[id := apiKeys[id].(lastUsedAt := Some(now))];
      }
    }

    method Revoke(id: string, now: nat) returns (err: Option<Error>)
      requires Consistent(State())
      modifies `apiKeys
      ensures Consistent(State())
      ensures RevokeApiKey(old(State()), id, now) == if err.None? then Success(State()) else Failure(err.value)
      ensures err.Some? ==> State() == old(State())
    {
      var affected := if id in apiKeys && apiKeys[id].revokedAt == None then 1 else 0;
      if affected == 0 {
        return Some(NoRows);
      }
      apiKeys := apiKeys[id := apiKeys[id].(revokedAt := Some(now))];
      return None;
    }
  }
}
