/** Network policies: which devices a device may reach, in its network configuration and through the relay. */
module Policy {
  import opened Wrappers
  import opened Models
  import opened Broker
  import opened BrokerRuns

  /** `policyAllows`. */
  predicate Selects(selector: string, device: Device) {
    selector == "*" || selector == device.id || selector == device.groupId
  }

  /** An enabled policy leads from any device, this source or its group to any device, this target or its group. */
  predicate LeadsTo(p: NetworkPolicy, source: Device, target: Device) {
    && p.enabled
    && (p.sourceId == "*" || p.sourceId == source.id || p.sourceId == source.groupId)
    && (p.targetId == "*" || p.targetId == target.id || p.targetId == target.groupId)
  }

  /** What a policy set means: some policy leads from `source` to `target`. */
  predicate Permits(policies: seq<NetworkPolicy>, source: Device, target: Device) {
    exists p :: p in policies && LeadsTo(p, source, target)
  }

  predicate Reaches(policies: seq<NetworkPolicy>, source: Device, target: Device) {
    target.id != source.id && Permits(policies, source, target)
  }

  function PeerOf(device: Device): NetworkPeer {
    NetworkPeer(device.id, device.name, device.virtualIP, device.publicKey, device.endpoint, [])
  }

  /** The devices a device may reach, in device order. */
  function Allowed(device: Device, devices: seq<Device>, policies: seq<NetworkPolicy>): seq<NetworkPeer> {
    if devices == [] then []
    else
      var n := |devices| - 1;
      Allowed(device, devices[..n], policies) + if Reaches(policies, device, devices[n]) then [PeerOf(devices[n])]
          else []
  }

  /** `allowedPeers`: fill a map with the targets of the device's policies, then filter the devices by it. */
  method AllowedPeers(device: Device, devices: seq<Device>, policies: seq<NetworkPolicy>)
    returns (peers: seq<NetworkPeer>)
    ensures peers == Allowed(device, devices, policies)
  {
    var allowed: map<string, bool> := map[];
    for i := 0 to |policies|
      invariant forall t :: t in allowed <==>
        exists p :: p in policies[..i] && p.enabled && Selects(p.sourceId, device) && p.targetId == t
    {
      assert policies[..i + 1] == policies[..i] + [policies[i]];
      if !policies[i].enabled {
        continue;
      }
      if Selects(policies[i].sourceId, device) {
        allowed := allowed[policies[i].targetId := true];
      }
    }
    assert policies[..|policies|] == policies;
    peers := [];
    for i := 0 to |devices|
      invariant peers == Allowed(device, devices[..i], policies)
    {
      var candidate := devices[i];
      assert devices[..i + 1][..i] == devices[..i];
      assert Permits(policies, device, candidate) <==>
             candidate.id in allowed || candidate.groupId in allowed || "*" in allowed;
      if candidate.id == device.id {
        continue;
      }
      if candidate.id in allowed || candidate.groupId in allowed || "*" in allowed {
        peers := peers + [PeerOf(candidate)];
      }
    }
    assert devices[..|devices|] == devices;
  }

  /** The result lists, in device order and each once, exactly the devices other than the asking one to which an
      enabled policy leads. Each has its device's fields, and no prefixes. */
  lemma {:induction false} AllowedExactly(device: Device, devices: seq<Device>, policies: seq<NetworkPolicy>)
    returns (at: seq<nat>)
    ensures Places(devices, (d: Device) => d.id != device.id && Permits(policies, device, d), at)
    ensures |Allowed(device, devices, policies)| == |at| && forall i :: 0 <= i < |at| ==> at[i] < |devices|
    ensures forall i :: 0 <= i < |at| ==>
              var peer, d := Allowed(device, devices, policies)[i], devices[at[i]];
              && peer.id == d.id && peer.name == d.name && peer.virtualIP == d.virtualIP
              && peer.publicKey == d.publicKey && peer.endpoint == d.endpoint && peer.allowedIPs == []
  {
    at := [];
    if devices != [] {
      var n := |devices| - 1;
      var before := AllowedExactly(device, devices[..n], policies);
      at := if Reaches(policies, device, devices[n]) then before + [n] else before;
      PlacesNext(devices, (d: Device) => d.id != device.id && Permits(policies, device, d), before, at);
    }
  }

  /** Policy order and repetition do not matter. */
  lemma {:induction false} PolicyOrderIrrelevant(device: Device, devices: seq<Device>, ps: seq<NetworkPolicy>,
                                                 qs: seq<NetworkPolicy>)
    requires forall p :: p in ps <==> p in qs
    ensures Allowed(device, devices, ps) == Allowed(device, devices, qs)
  {
    if devices != [] {
      PolicyOrderIrrelevant(device, devices[..|devices| - 1], ps, qs);
    }
  }

  /** More enabled policies never take a peer away; disabled ones never add one. */
  lemma {:induction false} PoliciesAreMonotone(device: Device, devices: seq<Device>, ps: seq<NetworkPolicy>,
                                               qs: seq<NetworkPolicy>)
    requires forall p :: p in ps && p.enabled ==> p in qs
    ensures forall peer :: peer in Allowed(device, devices, ps) ==> peer in Allowed(device, devices, qs)
  {
    if devices != [] {
      PoliciesAreMonotone(device, devices[..|devices| - 1], ps, qs);
    }
  }

  // ---------------------------------------------------------------- relay sessions need a policy

  /** The character that stands for all that differ from it in case only. */
  type Fold = char -> char

  /** `strings.EqualFold`. */
  predicate EqualFold(fold: Fold, a: string, b: string) {
    |a| == |b| && forall i :: 0 <= i < |a| ==> fold(a[i]) == fold(b[i])
  }

  predicate Names(fold: Fold, value: string, device: Device) {
    device.id == value || device.virtualIP == value || EqualFold(fold, device.name, value)
  }

  datatype ResolveError = TargetRequired | ListDevicesFailed | ListPoliciesFailed | TargetNotFound

  /** The first device a target value names, if it has an id. */
  ghost predicate IsTarget(fold: Fold, devices: seq<Device>, value: string, target: Device) {
    target.id != "" && exists k :: FirstNamed(fold, devices, value, k) && target == devices[k]
  }

  /** The device has this id, or this address, or a name that differs from the value in case only. */
  predicate IsNamed(fold: Fold, value: string, d: Device) {
    || d.id == value || d.virtualIP == value
    || (|d.name| == |value| && forall i :: 0 <= i < |value| ==> fold(value[i]) == fold(d.name[i]))
  }

  ghost predicate FirstNamed(fold: Fold, devices: seq<Device>, value: string, k: int) {
    && 0 <= k < |devices| && IsNamed(fold, value, devices[k])
    && forall j :: 0 <= j < k ==> !IsNamed(fold, value, devices[j])
  }

  /** `resolveRelayTarget`; `devices` and `policies` are what the store lists, or `None` if listing fails. */
  method ResolveRelayTarget(fold: Fold, source: Device, value: string, devices: Option<seq<Device>>,
                            policies: Option<seq<NetworkPolicy>>)
    returns (result: Result<(Device, bool), ResolveError>)
    ensures result == Failure(TargetRequired) <==> value == ""
    ensures result == Failure(ListDevicesFailed) <==> value != "" && devices.None?
    ensures result == Failure(ListPoliciesFailed) <==> value != "" && devices.Some? && policies.None?
    ensures result == Failure(TargetNotFound) <==>
              value != "" && devices.Some? && policies.Some? &&
                  forall target :: !IsTarget(fold, devices.value, value, target)
    ensures result.Success? ==> IsTarget(fold, devices.value, value, result.value.0)
    ensures result.Success? ==>
              (result.value.1 <==>
                exists peer :: peer in Allowed(source, devices.value, policies.value) && peer.id == result.value.0.id)
  {
    if value == "" {
      return Failure(TargetRequired);
    }
    if devices.None? {
      return Failure(ListDevicesFailed);
    }
    if policies.None? {
      return Failure(ListPoliciesFailed);
    }
    var target: Option<Device> := None;
    for i := 0 to |devices.value|
      invariant target.None? && forall j :: 0 <= j < i ==> !IsNamed(fold, value, devices.value[j])
    {
      if Names(fold, value, devices.value[i]) {
        target := Some(devices.value[i]);
        assert FirstNamed(fold, devices.value, value, i);
        break;
      }
    }
    if target.None? || target.value.id == "" {
      return Failure(TargetNotFound);
    }
    assert IsTarget(fold, devices.value, value, target.value);
    var peers := AllowedPeers(source, devices.value, policies.value);
    for i := 0 to |peers|
      invariant forall j :: 0 <= j < i ==> peers[j].id != target.value.id
    {
      if peers[i].id == target.value.id {
        return Success((target.value, true));
      }
    }
    return Success((target.value, false));
  }

  ghost predicate UniqueIds(devices: seq<Device>) {
    forall i, j :: 0 <= i < j < |devices| ==> devices[i].id != devices[j].id
  }

  /** With the device table's primary key, the relay's permission is the policies' meaning. */
  lemma ResolvedByPolicy(source: Device, target: Device, devices: seq<Device>, policies: seq<NetworkPolicy>)
    requires UniqueIds(devices) && target in devices
    ensures (exists peer :: peer in Allowed(source, devices, policies) && peer.id == target.id) <==>
            Reaches(policies, source, target)
  {
    var at := AllowedExactly(source, devices, policies);
    var k: nat :| k < |devices| && devices[k] == target;
    if Reaches(policies, source, target) {
      assert k in at;
      var i :| 0 <= i < |at| && at[i] == k;
      assert Allowed(source, devices, policies)[i].id == target.id;
    }
    forall peer | peer in Allowed(source, devices, policies) && peer.id == target.id
      ensures Reaches(policies, source, target) {
      var i :| 0 <= i < |at| && Allowed(source, devices, policies)[i] == peer;
      assert at[i] in at && at[i] == k;
    }
  }

  /** A request that reaches the broker: the creation of a session from an authenticated device, with the
      tables as it read them, or any other critical section. */
  datatype Request =
    | Open(id: string, source: Device, value: string, port: int, devices: seq<Device>, policies: seq<NetworkPolicy>,
           now: nat)
    | Other(step: Step)

  /** `handleTCPRelaySessionCreate` lets this request through, to this target. */
  ghost predicate Admits(fold: Fold, r: Request, target: Device) {
    && r.Open? && 1 <= r.port <= 65535 && IsTarget(fold, r.devices, r.value, target)
    && exists peer :: peer in Allowed(r.source, r.devices, r.policies) && peer.id == target.id
  }

  /** The broker's schedule when its creates come from admitted requests only. */
  ghost predicate Gated(fold: Fold, requests: seq<Request>, steps: seq<Step>) {
    && |requests| == |steps|
    && forall i :: 0 <= i < |steps| ==>
         match requests[i]
         case Other(step) => steps[i] == step && !step.CreateStep?
         case Open(id, source, value, port, devices, policies, now) =>
           && UniqueIds(devices) && steps[i].CreateStep? && Admits(fold, requests[i], steps[i].target)
           && steps[i] == CreateStep(id, source, steps[i].target, port, now)
  }

  ghost predicate Authorised(r: Request, z: RelaySession) {
    && r.Open? && z.sourceDeviceId == r.source.id && z.targetPort == r.port && 1 <= z.targetPort <= 65535
    && exists target :: target in r.devices && z.targetDeviceId == target.id && Reaches(r.policies, r.source, target)
  }

  /** Every session in the broker, and every proxy pair it ever started, goes back to a request whose own
      snapshot held an enabled policy from its source to its target. */
  lemma PolicyBehindEverySession(fold: Fold, requests: seq<Request>, steps: seq<Step>, id: string)
    requires Gated(fold, requests, steps) && Fresh(steps)
    requires id in Run(steps).sessions || exists p :: p in Run(steps).pairs && p.id == id
    ensures exists i :: 0 <= i < |requests| && requests[i].Open? && requests[i].id == id
                        && Authorised(requests[i], steps[i].Session())
                        && (id in Run(steps).sessions ==> Run(steps).sessions[id].session == steps[i].Session())
  {
    var i: nat;
    if id in Run(steps).sessions {
      i := RowsAreCreated(steps, id);
    } else {
      var p :| p in Run(steps).pairs && p.id == id;
      i := PairsAreCreated(steps, p);
    }
    SessionFate(steps, i);
    assert requests[i].Open?;
    ResolvedByPolicy(requests[i].source, steps[i].target, requests[i].devices, requests[i].policies);
  }
}
