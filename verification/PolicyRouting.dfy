/** What policies mean for routing: everything when the hub is off, nothing when it is on. */
module PolicyRouting {
  import opened Wrappers
  import opened Models
  import opened Addresses
  import opened Kernel
  import opened AgentTunnel
  import opened TunnelMeaning
  import opened Policy
  import opened Hub
  import opened TwoHop
  import opened EnrolledRouting
  import Enrolment

  /** What an agent's command list makes of its interface when the controller has no hub. */
  function DirectRun(accepts: Verdict, m: Machine, device: Device, keyFile: string, devices: seq<Device>,
                     policies: seq<NetworkPolicy>): (Machine, bool)
  {
    RunLines(accepts, m, Script(device.virtualIP, keyFile, Selected(Allowed(device, devices, policies))))
  }

  /** The agent configures this device: a policy leads to it, and it has a key and an address. */
  predicate Configures(policies: seq<NetworkPolicy>, source: Device, d: Device) {
    Reaches(policies, source, d) && d.publicKey != "" && d.virtualIP != ""
  }

  function DirectClaims(source: Device, devices: seq<Device>, policies: seq<NetworkPolicy>)
    : (claims: seq<Option<Claim>>)
    ensures |claims| == |devices|
  {
    if devices == [] then []
    else
      var n := |devices| - 1;
      DirectClaims(source, devices[..n], policies)
      + [if Configures(policies, source, devices[n]) then Some(ClaimOf(devices[n])) else None]
  }

  lemma {:induction false} DirectClaimsAt(source: Device, devices: seq<Device>, policies: seq<NetworkPolicy>, j: nat)
    requires j < |devices|
    ensures DirectClaims(source, devices, policies)[j] ==
            if Configures(policies, source, devices[j]) then Some(ClaimOf(devices[j])) else None
  {
    if j < |devices| - 1 {
      DirectClaimsAt(source, devices[..|devices| - 1], policies, j);
    }
  }

  /** A device's peer claims its own address and no other. */
  lemma DirectPrefix(d: Device)
    requires Single(PeerOf(d))
    ensures ParseIp(d.virtualIP).Some? && PrefixOf(PeerOf(d)) == ClaimOf(d).prefix
  {
    assert Claims(PeerOf(d)) == [d.virtualIP + "/32"];
    assert d.virtualIP + "/" + "32" == d.virtualIP + "/32";
    if ParseIp(d.virtualIP).None? {
      NoCidr(d.virtualIP, "32");
    } else {
      HostCidr(d.virtualIP);
      HostContains(ParseIp(d.virtualIP).value, 0);
    }
  }

  lemma AllowedStep(source: Device, devices: seq<Device>, policies: seq<NetworkPolicy>)
    requires devices != []
    ensures var n := |devices| - 1; var before := Allowed(source, devices[..n], policies);
            Allowed(source, devices, policies) ==
            if Reaches(policies, source, devices[n]) then before + [PeerOf(devices[n])] else before
  {
  }

  lemma {:induction false} AllowedArePeers(source: Device, devices: seq<Device>, policies: seq<NetworkPolicy>,
                                           p: NetworkPeer)
    returns (d: Device)
    requires p in Allowed(source, devices, policies)
    ensures d in devices && p == PeerOf(d) && Reaches(policies, source, d)
  {
    var n := |devices| - 1;
    AllowedStep(source, devices, policies);
    if p in Allowed(source, devices[..n], policies) {
      d := AllowedArePeers(source, devices[..n], policies, p);
    } else {
      d := devices[n];
    }
  }

  lemma DirectStep(i: Iface, d: Device, claim: Claim)
    requires Usable(PeerOf(d)) ==> Single(PeerOf(d))
    ensures Owns(AfterPeer(i, PeerOf(d)), claim.key, claim.prefix) <==>
            if Usable(PeerOf(d)) then
              ClaimOf(d) == claim || (Owns(i, claim.key, claim.prefix) && !Overrides(Some(ClaimOf(d)), claim))
            else Owns(i, claim.key, claim.prefix)
  {
    if Usable(PeerOf(d)) {
      DirectPrefix(d);
      GivesPrefix(i, PeerOf(d), claim.prefix, claim.key);
    }
  }

  lemma SinglePrefix(ps: seq<NetworkPeer>, n: nat)
    requires n <= |ps| && AllSingle(ps)
    ensures AllSingle(ps[..n])
  {
  }

  /** The agent's table gives an address to the last configured device that claims it. */
  lemma {:induction false} DirectTable(i: Iface, source: Device, devices: seq<Device>, policies: seq<NetworkPolicy>,
                                       claim: Claim)
    requires i.owner == map[] && AllSingle(Allowed(source, devices, policies))
    ensures Owns(AfterPeers(i, Allowed(source, devices, policies)), claim.key, claim.prefix) <==>
            Lasts(DirectClaims(source, devices, policies), claim)
  {
    if devices != [] {
      var n := |devices| - 1;
      var before, all := Allowed(source, devices[..n], policies), Allowed(source, devices, policies);
      AllowedStep(source, devices, policies);
      if Reaches(policies, source, devices[n]) {
        assert all[..|before|] == before && all[|before|] == PeerOf(devices[n]);
        SinglePrefix(all, |before|);
        DirectTable(i, source, devices[..n], policies, claim);
        assert PeerOf(devices[n]) in all;
        DirectStep(AfterPeers(i, before), devices[n], claim);
      } else {
        DirectTable(i, source, devices[..n], policies, claim);
      }
      LastsStep(DirectClaims(source, devices[..n], policies),
                if Configures(policies, source, devices[n]) then Some(ClaimOf(devices[n])) else None, claim);
    }
  }

  lemma {:induction false} ConfiguredIsAllowed(source: Device, devices: seq<Device>, policies: seq<NetworkPolicy>,
                                               j: nat)
    requires j < |devices| && Reaches(policies, source, devices[j])
    ensures PeerOf(devices[j]) in Allowed(source, devices, policies)
  {
    AllowedStep(source, devices, policies);
    if j < |devices| - 1 {
      ConfiguredIsAllowed(source, devices[..|devices| - 1], policies, j);
    }
  }

  lemma DirectClaimsAreOwn(source: Device, devices: seq<Device>, policies: seq<NetworkPolicy>)
    requires AllSingle(Allowed(source, devices, policies))
    ensures OwnClaims(DirectClaims(source, devices, policies), devices)
  {
    var claims := DirectClaims(source, devices, policies);
    forall l: nat | l < |devices|
      ensures claims[l].Some? ==> claims[l].value == ClaimOf(devices[l]) && ParseIp(devices[l].virtualIP).Some?
    {
      DirectClaimsAt(source, devices, policies, l);
      if claims[l].Some? {
        ConfiguredIsAllowed(source, devices, policies, l);
        DirectPrefix(devices[l]);
      }
    }
  }

  /** A table of single addresses, each routed, sends each address but the own one to its owner. */
  lemma RoutedHosts(i: Iface, own: Ip, ip: Ip, key: string)
    requires i.up && i.addresses == {Cidr(own, 32)}
    requires forall c :: c in i.routes ==> c == Cidr(c.base, 32)
    requires forall c :: c in i.owner ==> c in i.routes
    ensures Forwards(Some(i), ip, key) <==> Owns(i, key, Cidr(ip, 32)) && ip != own
  {
    HostContains(ip, ip);
    HostContains(own, ip);
    forall c | c in i.routes && Contains(c, ip) ensures c == Cidr(ip, 32) {
      HostContains(c.base, ip);
    }
    assert SendsTo(i, ip, key) <==> Owns(i, key, Cidr(ip, 32));
    assert Cidr(own, 32) in i.addresses;
  }

  lemma DirectRoutes(source: Device, devices: seq<Device>, policies: seq<NetworkPolicy>, i: Iface, keyFile: string)
    requires Denotes(i, source.virtualIP, keyFile, Allowed(source, devices, policies))
    requires AllSingle(Allowed(source, devices, policies))
    ensures forall c :: c in i.routes ==> c == Cidr(c.base, 32)
    ensures forall c :: c in i.owner ==> c in i.routes
  {
    var ps := Allowed(source, devices, policies);
    forall c | c in i.routes ensures c == Cidr(c.base, 32) {
      var j :| Wants(ps, j, c);
      var d := AllowedArePeers(source, devices, policies, ps[j]);
      DirectPrefix(d);
    }
    forall c | c in i.owner ensures c in i.routes {
      assert Owns(i, i.owner[c], c);
      var j :| LastClaim(ps, j, c, i.owner[c]);
      assert Wants(ps, j, c);
    }
  }

  lemma NoHubSelected(source: Device, devices: seq<Device>, policies: seq<NetworkPolicy>)
    requires NoHubIds(devices)
    ensures Selected(Allowed(source, devices, policies)) == Allowed(source, devices, policies)
  {
    NoDeviceIsHub(source, devices, policies);
  }

  lemma DirectTunnel(accepts: Verdict, m: Machine, source: Device, keyFile: string, devices: seq<Device>,
                     policies: seq<NetworkPolicy>)
    requires NoHubIds(devices) && DirectRun(accepts, m, source, keyFile, devices, policies).1
    ensures var ps := Allowed(source, devices, policies);
            var i := Final(source.virtualIP, keyFile, ps);
            && AllSingle(ps) && Denotes(i, source.virtualIP, keyFile, ps)
            && DirectRun(accepts, m, source, keyFile, devices, policies).0.net == Some(i)
            && i.owner == AfterPeers(Base(source.virtualIP, keyFile), ps).owner
  {
    NoHubSelected(source, devices, policies);
    ScriptRuns(accepts, m, source.virtualIP, keyFile, Allowed(source, devices, policies));
    FinalIsDenoted(source.virtualIP, keyFile, Allowed(source, devices, policies));
  }

  /** With the hub off, once an agent's list has completed, it sends another device's address exactly where the
      policies say: to that device's own key, if some enabled policy leads to it and no device after it in the
      listing that a policy also leads to has the same key. */
  lemma AgentSendsToAllowed(accepts: Verdict, m: Machine, keyFile: string, devices: seq<Device>,
                            policies: seq<NetworkPolicy>, from: nat, to: nat, key: string)
    requires DistinctAddresses(devices) && NoHubIds(devices) && from < |devices| && to < |devices| && from != to
    requires ParseIp(devices[from].virtualIP).Some? && ParseIp(devices[to].virtualIP).Some?
    requires DirectRun(accepts, m, devices[from], keyFile, devices, policies).1
    ensures var claims := DirectClaims(devices[from], devices, policies);
            Forwards(DirectRun(accepts, m, devices[from], keyFile, devices, policies).0.net,
                     ParseIp(devices[to].virtualIP).value, key) <==>
            key == devices[to].publicKey && Configures(policies, devices[from], devices[to])
            && !Shadowed(claims, devices, to)
  {
    var source, ip := devices[from], ParseIp(devices[to].virtualIP).value;
    var ps := Allowed(source, devices, policies);
    var i := Final(source.virtualIP, keyFile, ps);
    DirectTunnel(accepts, m, source, keyFile, devices, policies);
    HostCidr(source.virtualIP);
    DirectRoutes(source, devices, policies, i, keyFile);
    RoutedHosts(i, ParseIp(source.virtualIP).value, ip, key);
    OtherAddress(devices, from, to);
    DirectTable(Base(source.virtualIP, keyFile), source, devices, policies, Claim(key, Cidr(ip, 32)));
    DirectClaimsAreOwn(source, devices, policies);
    OwnerOfItsAddress(DirectClaims(source, devices, policies), devices, to, key);
    DirectClaimsAt(source, devices, policies, to);
  }

  /** For every device table that registration can build. */
  lemma EnrolledDevicesFollowPolicies(steps: seq<Enrolment.Step>, accepts: Verdict, m: Machine, keyFile: string,
                                      devices: seq<Device>, policies: seq<NetworkPolicy>, from: nat, to: nat,
                                      key: string)
    requires Listing(Enrolment.Run(steps).tables, devices) && NoHubIds(devices)
    requires from < |devices| && to < |devices| && from != to
    requires DirectRun(accepts, m, devices[from], keyFile, devices, policies).1
    ensures ParseIp(devices[to].virtualIP).Some?
    ensures Forwards(DirectRun(accepts, m, devices[from], keyFile, devices, policies).0.net,
                     ParseIp(devices[to].virtualIP).value, key) <==>
            key == devices[to].publicKey && Configures(policies, devices[from], devices[to])
            && !Shadowed(DirectClaims(devices[from], devices, policies), devices, to)
  {
    ListingIsDistinct(steps, devices);
    assert devices[from] in devices && devices[to] in devices;
    AgentSendsToAllowed(accepts, m, keyFile, devices, policies, from, to, key);
  }

  // ---------------------------------------------------------------- where the agent finds its peers

  /** The endpoint of the last configured device with this key that has one. */
  function EndpointFor(source: Device, devices: seq<Device>, policies: seq<NetworkPolicy>, key: string)
    : Option<string>
  {
    if devices == [] then None
    else
      var d := devices[|devices| - 1];
      if Configures(policies, source, d) && d.publicKey == key && d.endpoint != "" then Some(d.endpoint)
      else EndpointFor(source, devices[..|devices| - 1], policies, key)
  }

  lemma {:induction false} EndpointsAgree(source: Device, devices: seq<Device>, policies: seq<NetworkPolicy>,
                                          key: string)
    ensures LastEndpoint(Allowed(source, devices, policies), key) == EndpointFor(source, devices, policies, key)
  {
    if devices != [] {
      var n := |devices| - 1;
      AllowedStep(source, devices, policies);
      EndpointsAgree(source, devices[..n], policies, key);
      var before, all := Allowed(source, devices[..n], policies), Allowed(source, devices, policies);
      assert Reaches(policies, source, devices[n]) ==>
             all[..|all| - 1] == before && all[|all| - 1] == PeerOf(devices[n]);
    }
  }

  ghost predicate ConfiguresKey(source: Device, devices: seq<Device>, policies: seq<NetworkPolicy>, key: string) {
    exists d :: d in devices && Configures(policies, source, d) && d.publicKey == key
  }

  lemma KeysAgree(source: Device, devices: seq<Device>, policies: seq<NetworkPolicy>, key: string)
    ensures (exists j :: Lists(Allowed(source, devices, policies), j, key)) <==>
            ConfiguresKey(source, devices, policies, key)
  {
    var ps := Allowed(source, devices, policies);
    forall j | Lists(ps, j, key) ensures ConfiguresKey(source, devices, policies, key) {
      var d := AllowedArePeers(source, devices, policies, ps[j]);
    }
    forall d | d in devices && Configures(policies, source, d) && d.publicKey == key
      ensures exists j :: Lists(ps, j, key)
    {
      var k: nat :| k < |devices| && devices[k] == d;
      ConfiguredIsAllowed(source, devices, policies, k);
      var j :| 0 <= j < |ps| && ps[j] == PeerOf(d);
      assert Lists(ps, j, key);
    }
  }

  /** With the hub off, once its list has completed, an agent's peer table has exactly the keys of the devices that it
      configures, each with the last endpoint listed for it, which it keeps alive every 10 seconds. */
  lemma AgentKnowsEndpoints(accepts: Verdict, m: Machine, source: Device, keyFile: string, devices: seq<Device>,
                            policies: seq<NetworkPolicy>, key: string)
    requires NoHubIds(devices) && DirectRun(accepts, m, source, keyFile, devices, policies).1
    ensures DirectRun(accepts, m, source, keyFile, devices, policies).0.net.Some?
    ensures var peers := DirectRun(accepts, m, source, keyFile, devices, policies).0.net.value.peers;
            var endpoint := EndpointFor(source, devices, policies, key);
            && (key in peers <==> ConfiguresKey(source, devices, policies, key))
            && (key in peers ==> peers[key] == Peer(endpoint, if endpoint.Some? then 10 else 0))
  {
    DirectTunnel(accepts, m, source, keyFile, devices, policies);
    EndpointsAgree(source, devices, policies, key);
    KeysAgree(source, devices, policies, key);
  }

  // ---------------------------------------------------------------- with the hub on

  /** With the hub on, an agent's interface is the same under any two sets of policies. */
  lemma HubHidesPolicies(accepts: Verdict, m: Machine, device: Device, keyFile: string, devices: seq<Device>,
                         ps: seq<NetworkPolicy>, qs: seq<NetworkPolicy>, h: Hub)
    requires NoHubIds(devices)
    ensures AgentRun(accepts, m, device, keyFile, devices, ps, h) ==
            AgentRun(accepts, m, device, keyFile, devices, qs, h)
  {
    OnlyTheHub(device, devices, ps, h);
    OnlyTheHub(device, devices, qs, h);
  }

  /** The newer of two offered devices with different keys is reached, whatever the policies. */
  lemma NewerIsReached(steps: seq<Enrolment.Step>, devices: seq<Device>, accepts: Verdict, agent: Machine, hub: Machine,
                       keyFile: string, h: Hub, policies: seq<NetworkPolicy>)
    requires Listing(Enrolment.Run(steps).tables, devices) && |devices| == 2 && NoHubIds(devices)
    requires devices[0].publicKey != devices[1].publicKey && Offered(h, devices[0])
    requires h.publicKey != "" && h.ip != "" && ParseIp(devices[0].virtualIP) != ParseIp(h.ip)
    requires ParseIp(h.ip).Some? ==> InDrawnRange(ParseIp(h.ip).value)
    requires AgentRun(accepts, agent, devices[1], keyFile, devices, policies, h).1
    requires PassesOn(accepts, hub, h, keyFile)
    requires HubRun(accepts, hub, h, keyFile, devices).1 && SyncClaims(accepts, hub, h, keyFile, devices)[0].Some?
    ensures var ip := ParseIp(devices[0].virtualIP).value;
            && Forwards(AgentRun(accepts, agent, devices[1], keyFile, devices, policies, h).0.net, ip, h.publicKey)
            && Relays(HubRun(accepts, hub, h, keyFile, devices).0, ip, devices[0].publicKey)
  {
    var key := devices[0].publicKey;
    EnrolledDevicesAreRouted(steps, devices, policies, h, accepts, agent, accepts, hub, keyFile, keyFile,
                             1, 0, h.publicKey);
    EnrolledDevicesAreRouted(steps, devices, policies, h, accepts, agent, accepts, hub, keyFile, keyFile, 1, 0, key);
  }

  lemma NotTheHub(d: Device, h: Hub, b: Enrolment.Byte)
    requires h == DefaultHub(h.publicKey) && d.virtualIP == Enrolment.VirtualIP(0, b) && b != 1
    ensures h.ip != "" && ParseIp(d.virtualIP) != ParseIp(h.ip) && Route(h.network).Some?
    ensures ParseIp(h.ip).Some? && InDrawnRange(ParseIp(h.ip).value)
  {
    DefaultHubParses(h);
    Enrolment.VirtualRoundTrip(0, b);
  }

  /** Two devices and no policy at all: behind the default hub the one reaches the other. */
  lemma UnpermittedDeviceIsReached(accepts: Verdict, agent: Machine, hub: Machine, keyFile: string, h: Hub,
                                   key: string, other: string)
    returns (steps: seq<Enrolment.Step>, devices: seq<Device>)
    requires Willing(accepts) && h == DefaultHub(h.publicKey) && h.publicKey != "" && key != "" && key != other
    requires PassesOn(accepts, hub, h, keyFile)
    ensures Listing(Enrolment.Run(steps).tables, devices) && |devices| == 2 && devices[0].publicKey == key
    ensures !Reaches([], devices[1], devices[0]) && ParseIp(devices[0].virtualIP).Some?
    ensures var ip := ParseIp(devices[0].virtualIP).value;
            && Forwards(AgentRun(accepts, agent, devices[1], keyFile, devices, [], h).0.net, ip, h.publicKey)
            && Relays(HubRun(accepts, hub, h, keyFile, devices).0, ip, key)
  {
    steps, devices := TwoEnrolled(key, 3, other, 2);
    ListingIsDistinct(steps, devices);
    assert devices[1] in devices;
    NotTheHub(devices[0], h, 3);
    DefaultHubOffers(h, devices[0], 3);
    AgentCompletes(accepts, agent, devices[1], keyFile, devices, [], h);
    DefaultHubClaims(h, accepts, hub, keyFile, devices, 0, 3);
    NewerIsReached(steps, devices, accepts, agent, hub, keyFile, h, []);
  }
}
