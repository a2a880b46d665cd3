/** The registration handler over the store: each store statement is one step of `Enrolment`, and other
    requests run between them. */
module RegistrationServer {
  import opened Wrappers
  import opened Models
  import opened SqliteStore
  import opened Addresses
  import opened Enrolment

  datatype Refusal = InvalidKey | KeyExpired | KeyUsed | CreateFailed

  /** The checks on the invitation that was looked up, in order. */
  function Checked(row: Result<Invitation, Error>, now: nat): Result<Invitation, Refusal> {
    if row.Failure? then Failure(InvalidKey)
    else if now > row.value.expiresAt then Failure(KeyExpired)
    else if !row.value.reusable && row.value.usedAt.Some? then Failure(KeyUsed)
    else Success(row.value)
  }

  ghost predicate HasHash(t: Tables, id: string, hash: string) {
    id in t.invitations && t.invitations[id].tokenHash == hash
  }

  /** Which answer the checks give, by the rows of the table. */
  lemma ChecksExactly(t: Tables, hash: string, now: nat, id: string)
    requires Consistent(t)
    ensures Checked(InvitationByHash(t, hash), now) == Failure(InvalidKey) <==> forall k :: !HasHash(t, k, hash)
    ensures Checked(InvitationByHash(t, hash), now) != Failure(CreateFailed)
    ensures HasHash(t, id, hash) ==>
              var row, checked := t.invitations[id], Checked(InvitationByHash(t, hash), now);
              && (checked == Failure(KeyExpired) <==> now > row.expiresAt)
              && (checked == Failure(KeyUsed) <==> now <= row.expiresAt && !row.reusable && row.usedAt.Some?)
              && (checked.Success? <==> now <= row.expiresAt && (row.reusable || row.usedAt == None))
              && (checked.Success? ==> checked.value == row)
  {
    if k :| HasHash(t, k, hash) {
      LookupsAreExact(t, k);
      if HasHash(t, id, hash) {
        LookupsAreExact(t, id);
      }
    } else {
      assert forall k :: k in t.invitations && t.invitations[k].tokenHash == hash ==> HasHash(t, k, hash);
    }
  }

  /** None of these steps is taken by the request. */
  predicate OfOthers(steps: seq<Step>, request: nat) {
    forall k :: 0 <= k < |steps| && !steps[k].Invite? && !steps[k].Remove? ==> steps[k].request != request
  }

  lemma OtherStep(s: State, step: Step, request: nat)
    requires OfOthers([step], request) && request in s.phases
    ensures request in Apply(s, step).phases && Apply(s, step).phases[request] == s.phases[request]
  {
    assert [step][0] == step;
  }

  lemma {:induction false} OthersLeaveAlone(s: State, steps: seq<Step>, request: nat)
    requires Consistent(s.tables) && OfOthers(steps, request) && request in s.phases
    ensures Consistent(RunFrom(s, steps).tables)
    ensures request in RunFrom(s, steps).phases && RunFrom(s, steps).phases[request] == s.phases[request]
  {
    if steps != [] {
      OthersLeaveAlone(s, steps[..|steps| - 1], request);
      OtherStep(RunFrom(s, steps[..|steps| - 1]), steps[|steps| - 1], request);
      ConsistentStep(RunFrom(s, steps[..|steps| - 1]), steps[|steps| - 1]);
    }
  }

  class RegistrationServer {
    const store: Store
    /** What each request holds in its local variables. */
    var phases: map<nat, Phase>
    ghost var log: seq<Enrolled>

    constructor (store: Store)
      ensures this.store == store && phases == map[] && log == []
    {
      this.store, phases, log := store, map[], [];
    }

    ghost function State(): Enrolment.State
      reads this, store
    {
      Enrolment.State(store.State(), phases, log)
    }

    ghost predicate Valid()
      reads this, store
    {
      Consistent(store.State())
    }

    method LookUp(request: nat, hash: string, now: nat) returns (r: Result<Invitation, Refusal>)
      requires Valid() && request !in phases
      modifies this
      ensures State() == Apply(old(State()), Lookup(request, hash, now))
      ensures r == Checked(InvitationByHash(store.State(), hash), now)
    {
      var row := store.GetInvitationByTokenHash(hash);
      phases := phases[request := Done];
      if row.Failure? {
        return Failure(InvalidKey);
      }
      if now > row.value.expiresAt {
        return Failure(KeyExpired);
      }
      if !row.value.reusable && row.value.usedAt.Some? {
        return Failure(KeyUsed);
      }
      phases := phases[request := Passed(row.value)];
      return Success(row.value);
    }

    method Create(request: nat, id: string, b0: Byte, b1: Byte, draft: Device, healthy: bool) returns (ok: bool)
      requires Valid() && request in phases && phases[request].Passed?
      modifies this, store
      ensures Valid() && State() == Apply(old(State()), Insert(request, id, b0, b1, draft, healthy))
      ensures ok <==> phases[request].Inserted?
      ensures ok ==> phases[request].inv == old(phases[request].inv) && id in store.devices
                     && store.devices[id] == DeviceRow(old(phases[request].inv), id, b0, b1, draft)
    {
      var inv := phases[request].inv;
      if !healthy {
        phases := phases[request := Done];
        return false;
      }
      var err := store.AddDevice(DeviceRow(inv, id, b0, b1, draft));
      if err.Some? {
        phases := phases[request := Done];
        return false;
      }
      phases := phases[request := Inserted(inv)];
      log := log + [Enrolled(request, inv.id, id)];
      return true;
    }

    method MarkUsed(request: nat, now: nat, healthy: bool)
      requires Valid() && request in phases && phases[request].Inserted?
      modifies this, store
      ensures Valid() && State() == Apply(old(State()), Mark(request, now, healthy))
    {
      var inv := phases[request].inv;
      if !inv.reusable && healthy {
        store.MarkUsed(inv.id, now);
      }
      phases := phases[request := Done];
    }

    method Perform(step: Step)
      requires Valid()
      modifies this, store
      ensures Valid() && State() == Apply(old(State()), step)
    {
      match step {
        case Invite(inv) => var _ := store.AddInvitation(inv.(usedAt := None));
        case Remove(id) => var _ := store.RemoveDevice(id);
        case Lookup(request, hash, now) =>
          if request !in phases {
            var _ := LookUp(request, hash, now);
          }
        case Insert(request, id, b0, b1, draft, healthy) =>
          if request in phases && phases[request].Passed? {
            var _ := Create(request, id, b0, b1, draft, healthy);
          }
        case Mark(request, now, healthy) =>
          if request in phases && phases[request].Inserted? {
            MarkUsed(request, now, healthy);
          }
      }
    }

    /** What other requests do between two statements of this one. */
    method Interleave(steps: seq<Step>)
      requires Valid()
      modifies this, store
      ensures Valid() && State() == RunFrom(old(State()), steps)
    {
      for i := 0 to |steps|
        invariant Valid() && State() == RunFrom(old(State()), steps[..i])
      {
        Perform(steps[i]);
        assert steps[..i + 1] == steps[..i] + [steps[i]];
        RunFromNext(old(State()), steps[..i], steps[i]);
      }
      assert steps[..|steps|] == steps;
    }

    /** `handleDeviceRegister` from the look-up on: look up and check, then create, then mark; `gap` and
        `sync` are what others do in between, the latter while the hub is synced. */
    method HandleDeviceRegister(request: nat, hash: string, now: nat, gap: seq<Step>, id: string, b0: Byte, b1: Byte,
                                draft: Device, created: bool, sync: seq<Step>, later: nat, marked: bool)
      returns (result: Result<Device, Refusal>, ghost history: seq<Step>)
      requires Valid() && request !in phases && OfOthers(gap, request) && OfOthers(sync, request)
      modifies this, store
      ensures Valid() && State() == RunFrom(old(State()), history)
      ensures var checked := Checked(InvitationByHash(old(store.State()), hash), now);
              var looked := [Lookup(request, hash, now)] + gap;
              var tried := looked + [Insert(request, id, b0, b1, draft, created)];
              if checked.Failure? then result == Failure(checked.error) && history == [Lookup(request, hash, now)]
              else
                var row := DeviceRow(checked.value, id, b0, b1, draft);
                if !created || CreateDevice(RunFrom(old(State()), looked).tables, row).Failure? then
                  result == Failure(CreateFailed) && history == tried
                else
                  result == Success(row) && history == tried + sync + [Mark(request, later, marked)]
      ensures result.Success? ==>
              && result.value.id == id && result.value.name == draft.name && result.value.publicKey == draft.publicKey
              && result.value.endpoint == draft.endpoint && result.value.tokenHash == draft.tokenHash
              && result.value.createdAt == draft.createdAt && result.value.virtualIP == Dotted(10, 88, b0, b1)
              && exists k :: HasHash(old(store.State()), k, hash)
                             && result.value.userId == old(store.invitations)[k].userId
                             && result.value.groupId == old(store.invitations)[k].groupId
    {
      ghost var start := State();
      history := [Lookup(request, hash, now)];
      RunFromNext(start, [], Lookup(request, hash, now));
      assert [] + history == history;
      ghost var tables := store.State();
      var invitation := LookUp(request, hash, now);
      if invitation.Failure? {
        return Failure(invitation.error), history;
      }
      OthersLeaveAlone(State(), gap, request);
      RunFromConcat(start, history, gap);
      Interleave(gap);
      history := history + gap;
      RunFromNext(start, history, Insert(request, id, b0, b1, draft, created));
      var ok := Create(request, id, b0, b1, draft, created);
      history := history + [Insert(request, id, b0, b1, draft, created)];
      if !ok {
        return Failure(CreateFailed), history;
      }
      var device := DeviceRow(invitation.value, id, b0, b1, draft);
      ChecksExactly(tables, hash, now, invitation.value.id);
      OthersLeaveAlone(State(), sync, request);
      RunFromConcat(start, history, sync);
      Interleave(sync);
      history := history + sync;
      RunFromNext(start, history, Mark(request, later, marked));
      MarkUsed(request, later, marked);
      history := history + [Mark(request, later, marked)];
      return Success(device), history;
    }
  }
}
