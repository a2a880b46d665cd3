/** Routing over both hops: an agent's table and the hub's table, put together. */
module TwoHop {
  import opened Wrappers
  import opened Models
  import opened Addresses
  import opened Kernel
  import opened AgentTunnel
  import opened TunnelMeaning
  import opened Hub
  import opened Policy

  /** `handleDeviceNetworkConfig` with the hub on. */
  function ConfiguredPeers(device: Device, devices: seq<Device>, policies: seq<NetworkPolicy>,
                           h: Hub): seq<NetworkPeer> {
    Allowed(device, devices, policies) + [HubPeer(h)]
  }

  /** What an agent is told with the hub on: the devices its policies allow, as with the hub off, and then the hub. */
  lemma HubIsTold(device: Device, devices: seq<Device>, policies: seq<NetworkPolicy>, h: Hub)
    ensures var ps := ConfiguredPeers(device, devices, policies, h); var p := ps[|ps| - 1];
            && ps[..|ps| - 1] == Allowed(device, devices, policies)
            && p.id == "linkbit-hub" && p.name == "Linkbit Hub" && p.virtualIP == h.ip && p.publicKey == h.publicKey
            && p.endpoint == h.endpoint && p.allowedIPs == [h.network]
  {
  }

  /** Device ids are uuids, so none is the hub's. */
  predicate NoHubIds(devices: seq<Device>) {
    forall d :: d in devices ==> d.id != HUB_ID
  }

  lemma {:induction false} NoDeviceIsHub(device: Device, devices: seq<Device>, policies: seq<NetworkPolicy>)
    requires NoHubIds(devices)
    ensures HubOnly(Allowed(device, devices, policies)) == []
  {
    if devices != [] {
      var n := |devices| - 1;
      NoDeviceIsHub(device, devices[..n], policies);
      var all := Allowed(device, devices, policies);
      if Reaches(policies, device, devices[n]) {
        assert all[..|all| - 1] == Allowed(device, devices[..n], policies);
      } else {
        assert all == Allowed(device, devices[..n], policies);
      }
    }
  }

  /** With the hub on, an agent configures the hub and nobody else, whatever its policies allow. */
  lemma OnlyTheHub(device: Device, devices: seq<Device>, policies: seq<NetworkPolicy>, h: Hub)
    requires NoHubIds(devices)
    ensures Selected(ConfiguredPeers(device, devices, policies, h)) == [HubPeer(h)]
  {
    NoDeviceIsHub(device, devices, policies);
    var ps := ConfiguredPeers(device, devices, policies, h);
    assert ps[..|ps| - 1] == Allowed(device, devices, policies);
  }

  /** The interface of an agent that was given the hub alone. */
  lemma HubTunnel(virtualIP: string, keyFile: string, h: Hub)
    requires h.publicKey != "" && h.ip != "" && Configurable(virtualIP, [HubPeer(h)])
    ensures ParseCidr(h.network).Some?
    ensures var i := Final(virtualIP, keyFile, [HubPeer(h)]); var c := Masked(ParseCidr(h.network).value);
            i.owner == map[c := h.publicKey] && i.routes == {c} &&
                i.addresses == {ParseCidr(virtualIP + "/32").value} && i.up
  {
    var ps, base := [HubPeer(h)], Base(virtualIP, keyFile);
    assert Usable(ps[0]) && Claims(ps[0]) == [h.network] && ps[0] in ps;
    assert ps[..0] == [];
    assert AfterPeers(base, ps) == AfterPeer(base, ps[0]);
    assert Routes(ps[..0]) == [] && Routes(ps) == [h.network];
    assert h.network in [h.network];
  }

  /** Where packets go when one peer owns one prefix. */
  lemma OnePrefix(i: Iface, c: Cidr, hub: string, own: Ip, ip: Ip, key: string)
    requires i.owner == map[c := hub] && i.routes == {c} && i.addresses == {Cidr(own, 32)} && i.up
    ensures Forwards(Some(i), ip, key) <==> key == hub && Contains(c, ip) && ip != own
  {
    HostContains(own, ip);
    assert c in i.owner && c in i.routes && Cidr(own, 32) in i.addresses;
    if Contains(c, ip) && key == hub {
      assert SendsTo(i, ip, key);
    }
  }

  /** What an agent's command list makes of its interface. */
  function AgentRun(accepts: Verdict, m: Machine, device: Device, keyFile: string, devices: seq<Device>,
                    policies: seq<NetworkPolicy>, h: Hub): (Machine, bool)
  {
    RunLines(accepts, m, Script(device.virtualIP, keyFile, Selected(ConfiguredPeers(device, devices, policies, h))))
  }

  /** The first hop: once an agent's configuration has been applied, exactly the addresses of the hub
      network other than its own go into the tunnel, and all of them to the hub. */
  lemma AgentSendsToHub(accepts: Verdict, m: Machine, device: Device, keyFile: string, devices: seq<Device>,
                        policies: seq<NetworkPolicy>, h: Hub, ip: Ip, key: string)
    requires NoHubIds(devices) && h.publicKey != "" && h.ip != ""
    requires ParseIp(device.virtualIP).Some?
    requires AgentRun(accepts, m, device, keyFile, devices, policies, h).1
    ensures ParseCidr(h.network).Some?
    ensures Forwards(AgentRun(accepts, m, device, keyFile, devices, policies, h).0.net, ip, key) <==>
            key == h.publicKey && Contains(ParseCidr(h.network).value, ip) && ip != ParseIp(device.virtualIP).value
  {
    var ps := [HubPeer(h)];
    OnlyTheHub(device, devices, policies, h);
    ScriptRuns(accepts, m, device.virtualIP, keyFile, ps);
    HubTunnel(device.virtualIP, keyFile, h);
    HostCidr(device.virtualIP);
    var own, c := ParseIp(device.virtualIP).value, Masked(ParseCidr(h.network).value);
    OnePrefix(Final(device.virtualIP, keyFile, ps), c, h.publicKey, own, ip, key);
    MaskedContains(ParseCidr(h.network).value, ip);
  }

  /** Everything an agent issues with the hub on, in order, when its list completes: one peer, the hub, with the hub's
      key, network and endpoint. */
  lemma AgentIssues(accepts: Verdict, m: Machine, device: Device, keyFile: string, devices: seq<Device>,
                    policies: seq<NetworkPolicy>, h: Hub)
    requires NoHubIds(devices) && h.publicKey != "" && h.ip != ""
    requires AgentRun(accepts, m, device, keyFile, devices, policies, h).1
    ensures AgentRun(accepts, m, device, keyFile, devices, policies, h).0.issued ==
            m.issued + ([LinkDel, LinkAdd] + (if keyFile == "" then [] else [SetKey(keyFile)])
                        + [AddressAdd(device.virtualIP + "/32"), SetPeer(h.publicKey, [h.network])]
                        + (if h.endpoint == "" then []
                           else [SetEndpoint(h.publicKey, h.endpoint), SetKeepalive(h.publicKey, 10)])
                        + [SetMtu(1180), SetUp, RouteReplace(h.network), Ping(h.ip)])
  {
    OnlyTheHub(device, devices, policies, h);
    AllIssued(accepts, m, Script(device.virtualIP, keyFile, [HubPeer(h)]));
    HubScriptCommands(device.virtualIP, keyFile, h);
  }

  lemma PeerCommandsOf(h: Hub)
    requires h.publicKey != "" && h.ip != ""
    ensures Commands(PeersLines([HubPeer(h)])) == [SetPeer(h.publicKey, [h.network])]
            + (if h.endpoint == "" then []
               else [SetEndpoint(h.publicKey, h.endpoint), SetKeepalive(h.publicKey, 10)])
    ensures Routes([HubPeer(h)]) == [h.network] && Commands(WarmLines([HubPeer(h)])) == [Ping(h.ip)]
  {
    var p := HubPeer(h);
    assert [p][..0] == [] && Usable(p) && Claims(p) == [h.network];
    assert PeersLines([p]) == Must(PeerCommands(p));
  }

  lemma HeadCommandsOf(virtualIP: string, keyFile: string)
    ensures Commands(Head(virtualIP, keyFile)) ==
            [LinkDel, LinkAdd] + (if keyFile == "" then [] else [SetKey(keyFile)]) + [AddressAdd(virtualIP + "/32")]
  {
  }

  lemma HubScriptCommands(virtualIP: string, keyFile: string, h: Hub)
    requires h.publicKey != "" && h.ip != ""
    ensures Commands(Script(virtualIP, keyFile, [HubPeer(h)])) ==
            [LinkDel, LinkAdd] + (if keyFile == "" then [] else [SetKey(keyFile)])
            + [AddressAdd(virtualIP + "/32"), SetPeer(h.publicKey, [h.network])]
            + (if h.endpoint == "" then []
               else [SetEndpoint(h.publicKey, h.endpoint), SetKeepalive(h.publicKey, 10)])
            + [SetMtu(1180), SetUp, RouteReplace(h.network), Ping(h.ip)]
  {
    var ps := [HubPeer(h)];
    var a, b, c, d, e := Head(virtualIP, keyFile), PeersLines(ps), UP_LINES, RouteLines(Routes(ps)), WarmLines(ps);
    CommandsConcat(a, b);
    CommandsConcat(a + b, c);
    CommandsConcat(a + b + c, d);
    CommandsConcat(a + b + c + d, e);
    PeerCommandsOf(h);
    HeadCommandsOf(virtualIP, keyFile);
    assert Commands(c) == [SetMtu(1180), SetUp] && Commands(d) == [RouteReplace(h.network)];
    Flatten([LinkDel, LinkAdd] + (if keyFile == "" then [] else [SetKey(keyFile)]), AddressAdd(virtualIP + "/32"),
            SetPeer(h.publicKey, [h.network]),
            if h.endpoint == "" then [] else [SetEndpoint(h.publicKey, h.endpoint), SetKeepalive(h.publicKey, 10)],
            SetMtu(1180), SetUp, RouteReplace(h.network), Ping(h.ip));
  }

  lemma Flatten(a: seq<Command>, b: Command, c: Command, d: seq<Command>, e: Command, f: Command, g: Command,
                i: Command)
    ensures ((((a + [b]) + ([c] + d)) + [e, f]) + [g]) + [i] == a + [b, c] + d + [e, f, g, i]
  {
  }

  /** With the hub on, the hub is the only entry of an agent's peer table, and has the hub's endpoint. */
  lemma AgentKnowsHub(accepts: Verdict, m: Machine, device: Device, keyFile: string, devices: seq<Device>,
                      policies: seq<NetworkPolicy>, h: Hub)
    requires NoHubIds(devices) && h.publicKey != "" && h.ip != ""
    requires AgentRun(accepts, m, device, keyFile, devices, policies, h).1
    ensures AgentRun(accepts, m, device, keyFile, devices, policies, h).0.net.Some?
    ensures AgentRun(accepts, m, device, keyFile, devices, policies, h).0.net.value.peers ==
            map[h.publicKey := if h.endpoint == "" then Peer(None, 0) else Peer(Some(h.endpoint), 10)]
  {
    var ps := [HubPeer(h)];
    OnlyTheHub(device, devices, policies, h);
    ScriptRuns(accepts, m, device.virtualIP, keyFile, ps);
    HubEntry(Base(device.virtualIP, keyFile), h);
  }

  lemma HubEntry(i: Iface, h: Hub)
    requires i.peers == map[] && h.publicKey != "" && h.ip != ""
    ensures AfterPeers(i, [HubPeer(h)]).peers ==
            map[h.publicKey := if h.endpoint == "" then Peer(None, 0) else Peer(Some(h.endpoint), 10)]
  {
    var p := HubPeer(h);
    assert [p][..0] == [] && Usable(p);
    assert AfterPeers(i, [p]) == AfterPeer(i, p);
  }

  // ---------------------------------------------------------------- the second hop

  /** The unique constraint on addresses. Public keys have none: a device may register again with its key. */
  predicate DistinctAddresses(devices: seq<Device>) {
    forall i, j :: 0 <= i < j < |devices| && ParseIp(devices[i].virtualIP).Some? ==>
      ParseIp(devices[i].virtualIP) != ParseIp(devices[j].virtualIP)
  }

  datatype Claim = Claim(key: string, prefix: Cidr)

  /** What the hub's sync gives each device whose command goes through: its address, to its key. */
  function ClaimsOf(accepts: Verdict, issued: seq<Command>, h: Hub, devices: seq<Device>): (claims: seq<Option<Claim>>)
    ensures |claims| == |devices|
  {
    if devices == [] then []
    else
      var n := |devices| - 1;
      ClaimsOf(accepts, issued, h, devices[..n])
      + [if Accepted(accepts, issued, h, devices, n) then Some(ClaimOf(devices[n])) else None]
  }

  function ClaimOf(d: Device): Claim {
    Claim(d.publicKey, Cidr(if ParseIp(d.virtualIP).Some? then ParseIp(d.virtualIP).value else 0, 32))
  }

  /** A later claim takes the same address, or gives the same key another one. */
  predicate Overrides(later: Option<Claim>, claim: Claim) {
    later.Some? && (later.value.key == claim.key || later.value.prefix == claim.prefix)
  }

  predicate LastsFrom(claims: seq<Option<Claim>>, j: int, claim: Claim) {
    0 <= j < |claims| && claims[j] == Some(claim) && forall l :: j < l < |claims| ==> !Overrides(claims[l], claim)
  }

  ghost predicate Lasts(claims: seq<Option<Claim>>, claim: Claim) {
    exists j :: LastsFrom(claims, j, claim)
  }

  lemma GivesPrefix(i: Iface, p: NetworkPeer, c: Cidr, key: string)
    requires Usable(p)
    ensures Owns(AfterPeer(i, p), key, c) <==>
            (key == p.publicKey && c == PrefixOf(p)) || (Owns(i, key, c) && key != p.publicKey && c != PrefixOf(p))
  {
  }

  lemma LastsStep(claims: seq<Option<Claim>>, next: Option<Claim>, claim: Claim)
    ensures Lasts(claims + [next], claim) <==> next == Some(claim) || (Lasts(claims, claim) && !Overrides(next, claim))
  {
    var more, n := claims + [next], |claims|;
    assert more[n] == next && LastsFrom(more, n, claim) <==> next == Some(claim);
    forall j | j < n ensures LastsFrom(more, j, claim) <==> LastsFrom(claims, j, claim) && !Overrides(next, claim) {
      assert forall l :: 0 <= l < n ==> more[l] == claims[l];
    }
  }

  lemma ClaimStep(i: Iface, h: Hub, d: Device, claim: Claim)
    requires Served(h, d)
    ensures Owns(AfterPeer(i, AsPeer(d)), claim.key, claim.prefix) <==>
            ClaimOf(d) == claim || (Owns(i, claim.key, claim.prefix) && !Overrides(Some(ClaimOf(d)), claim))
  {
    ServedPrefix(d);
    GivesPrefix(i, AsPeer(d), claim.prefix, claim.key);
  }

  lemma AcceptedBefore(accepts: Verdict, issued: seq<Command>, h: Hub, devices: seq<Device>, j: nat)
    requires j < |devices| - 1
    ensures Accepted(accepts, issued, h, devices[..|devices| - 1], j) == Accepted(accepts, issued, h, devices, j)
  {
    var before := devices[..|devices| - 1];
    assert before[..j] == devices[..j] && before[j] == devices[j];
  }

  lemma {:induction false} ClaimsAt(accepts: Verdict, issued: seq<Command>, h: Hub, devices: seq<Device>, j: nat)
    requires j < |devices|
    ensures ClaimsOf(accepts, issued, h, devices)[j] ==
            if Accepted(accepts, issued, h, devices, j) then Some(ClaimOf(devices[j])) else None
  {
    if j < |devices| - 1 {
      ClaimsAt(accepts, issued, h, devices[..|devices| - 1], j);
      AcceptedBefore(accepts, issued, h, devices, j);
    }
  }

  /** For any list of devices, and whichever commands are refused, the hub's table gives an address to the
      last device that claimed it, unless that device's key claimed another one later. */
  lemma {:induction false} HubTable(accepts: Verdict, issued: seq<Command>, i: Iface, h: Hub, devices: seq<Device>,
                                    claim: Claim)
    requires i.owner == map[]
    ensures Owns(AfterPeers(i, AcceptedPeers(accepts, issued, h, devices)), claim.key, claim.prefix) <==>
            Lasts(ClaimsOf(accepts, issued, h, devices), claim)
  {
    if devices != [] {
      var n := |devices| - 1;
      HubTable(accepts, issued, i, h, devices[..n], claim);
      AcceptedStep(accepts, issued, h, devices, i);
      if Accepted(accepts, issued, h, devices, n) {
        LastsStep(ClaimsOf(accepts, issued, h, devices[..n]), Some(ClaimOf(devices[n])), claim);
        ClaimStep(AfterPeers(i, AcceptedPeers(accepts, issued, h, devices[..n])), h, devices[n], claim);
      } else {
        LastsStep(ClaimsOf(accepts, issued, h, devices[..n]), None, claim);
      }
    }
  }

  lemma {:induction false} PeersKeepRest(i: Iface, ps: seq<NetworkPeer>)
    ensures AfterPeers(i, ps) == i.(peers := AfterPeers(i, ps).peers, owner := AfterPeers(i, ps).owner)
  {
    if ps != [] {
      PeersKeepRest(i, ps[..|ps| - 1]);
    }
  }

  /** The claims of a hub whose sync starts from this machine. */
  function SyncClaims(accepts: Verdict, m: Machine, h: Hub, keyFile: string, devices: seq<Device>): seq<Option<Claim>> {
    ClaimsOf(accepts, m.issued + Commands(HubHead(h, keyFile)), h, devices)
  }

  function HubRun(accepts: Verdict, m: Machine, h: Hub, keyFile: string, devices: seq<Device>): (Machine, bool) {
    RunLines(accepts, m, HubScript(h, keyFile, devices))
  }

  /** A table of single addresses, behind the hub's one connected prefix, sends each address to its owner. */
  lemma HostTable(i: Iface, hub: Cidr, ip: Ip, key: string)
    requires i.up && i.addresses == {hub} && i.routes == {} && forall c :: c in i.owner ==> c == Cidr(c.base, 32)
    ensures Forwards(Some(i), ip, key) <==> Owns(i, key, Cidr(ip, 32)) && Contains(hub, ip) && ip != hub.base
  {
    HostContains(ip, ip);
    forall c | c in i.owner && Contains(c, ip) ensures c == Cidr(ip, 32) {
      HostContains(c.base, ip);
    }
    assert SendsTo(i, ip, key) <==> Owns(i, key, Cidr(ip, 32));
    assert hub in i.addresses;
  }

  lemma OwnersAreHosts(accepts: Verdict, issued: seq<Command>, i: Iface, h: Hub, devices: seq<Device>, c: Cidr)
    requires i.owner == map[] && c in AfterPeers(i, AcceptedPeers(accepts, issued, h, devices)).owner
    ensures c == Cidr(c.base, 32)
  {
    var table := AfterPeers(i, AcceptedPeers(accepts, issued, h, devices));
    var claim := Claim(table.owner[c], c);
    HubTable(accepts, issued, i, h, devices, claim);
    assert Owns(table, claim.key, claim.prefix);
    var claims := ClaimsOf(accepts, issued, h, devices);
    var j :| LastsFrom(claims, j, claim);
    ClaimsAt(accepts, issued, h, devices, j);
  }

  lemma HubForwards(accepts: Verdict, issued: seq<Command>, h: Hub, keyFile: string, devices: seq<Device>, ip: Ip,
                    key: string)
    requires ParseIp(h.ip).Some? && ParseCidr(h.ip + "/16") == Some(Cidr(ParseIp(h.ip).value, 16))
    ensures Forwards(Some(AfterPeers(HubBase(h, keyFile), AcceptedPeers(accepts, issued, h, devices))), ip, key) <==>
            && Lasts(ClaimsOf(accepts, issued, h, devices), Claim(key, Cidr(ip, 32)))
            && Contains(Cidr(ParseIp(h.ip).value, 16), ip) && ip != ParseIp(h.ip).value
  {
    var base := HubBase(h, keyFile);
    var i := AfterPeers(base, AcceptedPeers(accepts, issued, h, devices));
    PeersKeepRest(base, AcceptedPeers(accepts, issued, h, devices));
    forall c | c in i.owner ensures c == Cidr(c.base, 32) {
      OwnersAreHosts(accepts, issued, base, h, devices, c);
    }
    HubTable(accepts, issued, base, h, devices, Claim(key, Cidr(ip, 32)));
    HostTable(i, Cidr(ParseIp(h.ip).value, 16), ip, key);
  }

  /** The second hop, exactly, for any list of devices and whichever device commands are refused: a synced hub
      forwards an address to the device that owns it in that sense, if and only if the address also lies in
      the fixed /16 around the hub's own address - which is not the hub's configured network. */
  lemma HubSendsToDevice(accepts: Verdict, m: Machine, h: Hub, keyFile: string, devices: seq<Device>, ip: Ip,
                         key: string)
    requires HubRun(accepts, m, h, keyFile, devices).1
    ensures ParseIp(h.ip).Some?
    ensures Forwards(HubRun(accepts, m, h, keyFile, devices).0.net, ip, key) <==>
            && Lasts(SyncClaims(accepts, m, h, keyFile, devices), Claim(key, Cidr(ip, 32)))
            && Contains(Cidr(ParseIp(h.ip).value, 16), ip) && ip != ParseIp(h.ip).value
  {
    HubRuns(accepts, m, h, keyFile, devices);
    HubAddressParses(h);
    HubForwards(accepts, m.issued + Commands(HubHead(h, keyFile)), h, keyFile, devices, ip, key);
  }

  lemma HubAddressParses(h: Hub)
    requires ParseCidr(h.ip + "/16").Some?
    ensures ParseIp(h.ip).Some? && ParseCidr(h.ip + "/16") == Some(Cidr(ParseIp(h.ip).value, 16))
  {
    assert h.ip + "/" + "16" == h.ip + "/16";
    if ParseIp(h.ip).None? {
      NoCidr(h.ip, "16");
    } else {
      SixteenCidr(h.ip);
    }
  }

  /** The command of a later device with the same key goes through, so the hub knows that one's address only. */
  predicate Shadowed(claims: seq<Option<Claim>>, devices: seq<Device>, to: nat)
    requires to < |devices| == |claims|
  {
    exists l :: to < l < |devices| && claims[l].Some? && devices[l].publicKey == devices[to].publicKey
  }

  lemma OtherAddress(devices: seq<Device>, l: nat, to: nat)
    requires DistinctAddresses(devices) && l < |devices| && to < |devices| && l != to &&
             ParseIp(devices[to].virtualIP).Some?
    ensures ParseIp(devices[l].virtualIP) != ParseIp(devices[to].virtualIP)
  {
  }

  lemma ClaimIsOwn(accepts: Verdict, issued: seq<Command>, h: Hub, devices: seq<Device>, l: nat)
    requires l < |devices|
    ensures var claims := ClaimsOf(accepts, issued, h, devices);
            claims[l].Some? ==> claims[l].value == ClaimOf(devices[l]) && ParseIp(devices[l].virtualIP).Some?
  {
    ClaimsAt(accepts, issued, h, devices, l);
  }

  /** Each claim is its own device's. */
  predicate OwnClaims(claims: seq<Option<Claim>>, devices: seq<Device>) {
    && |claims| == |devices|
    && forall l :: 0 <= l < |claims| && claims[l].Some? ==>
         claims[l].value == ClaimOf(devices[l]) && ParseIp(devices[l].virtualIP).Some?
  }

  /** With distinct addresses, who owns a device's address: nobody but that device, and only with the last claim
      of its key. */
  lemma OwnerOfItsAddress(claims: seq<Option<Claim>>, devices: seq<Device>, to: nat, key: string)
    requires OwnClaims(claims, devices) && DistinctAddresses(devices)
    requires to < |devices| && ParseIp(devices[to].virtualIP).Some?
    ensures Lasts(claims, Claim(key, Cidr(ParseIp(devices[to].virtualIP).value, 32))) <==>
            key == devices[to].publicKey && claims[to].Some? && !Shadowed(claims, devices, to)
  {
    var claim := Claim(key, Cidr(ParseIp(devices[to].virtualIP).value, 32));
    forall l: nat | l < |devices| && l != to
      ensures claims[l] != Some(claim)
      ensures Overrides(claims[l], claim) <==> claims[l].Some? && devices[l].publicKey == key
    {
      OtherAddress(devices, l, to);
    }
    assert Lasts(claims, claim) <==> LastsFrom(claims, to, claim);
  }

  lemma SyncClaimsAreOwn(accepts: Verdict, issued: seq<Command>, h: Hub, devices: seq<Device>)
    ensures OwnClaims(ClaimsOf(accepts, issued, h, devices), devices)
  {
    forall l: nat | l < |devices|
      ensures var claims := ClaimsOf(accepts, issued, h, devices);
              claims[l].Some? ==> claims[l].value == ClaimOf(devices[l]) && ParseIp(devices[l].virtualIP).Some?
    {
      ClaimIsOwn(accepts, issued, h, devices, l);
    }
  }

  /** The second hop for one device of a list with distinct addresses. */
  lemma HubReaches(accepts: Verdict, m: Machine, h: Hub, keyFile: string, devices: seq<Device>, to: nat, key: string)
    requires HubRun(accepts, m, h, keyFile, devices).1
    requires DistinctAddresses(devices) && to < |devices| && ParseIp(devices[to].virtualIP).Some?
    ensures ParseIp(h.ip).Some?
    ensures var ip, claims := ParseIp(devices[to].virtualIP).value, SyncClaims(accepts, m, h, keyFile, devices);
            Forwards(HubRun(accepts, m, h, keyFile, devices).0.net, ip, key) <==>
            && key == devices[to].publicKey && claims[to].Some? && !Shadowed(claims, devices, to)
            && Contains(Cidr(ParseIp(h.ip).value, 16), ip) && ip != ParseIp(h.ip).value
  {
    HubSendsToDevice(accepts, m, h, keyFile, devices, ParseIp(devices[to].virtualIP).value, key);
    var issued := m.issued + Commands(HubHead(h, keyFile));
    SyncClaimsAreOwn(accepts, issued, h, devices);
    OwnerOfItsAddress(ClaimsOf(accepts, issued, h, devices), devices, to, key);
  }

  // ---------------------------------------------------------------- both hops

  /** Both hops, for any hub, any policies and whatever commands are refused, once both lists have completed:
      a device's address goes from every other agent to the hub and to nobody else, if the hub network covers
      it; and from the hub to exactly that device, if the host passes packets on, its command went through, no
      later accepted device has its key, and the address lies in the hub's own /16 and is not the hub's. */
  lemma TwoHopRouting(agentAccepts: Verdict, agent: Machine, hubAccepts: Verdict, hub: Machine, h: Hub,
                      agentKey: string, hubKey: string, devices: seq<Device>, policies: seq<NetworkPolicy>,
                      from: nat, to: nat, key: string)
    requires DistinctAddresses(devices) && NoHubIds(devices) && from < |devices| && to < |devices| && from != to
    requires h.publicKey != "" && h.ip != ""
    requires ParseIp(devices[from].virtualIP).Some? && ParseIp(devices[to].virtualIP).Some?
    requires AgentRun(agentAccepts, agent, devices[from], agentKey, devices, policies, h).1
    requires HubRun(hubAccepts, hub, h, hubKey, devices).1
    ensures ParseIp(h.ip).Some? && ParseCidr(h.network).Some?
    ensures var ip, claims := ParseIp(devices[to].virtualIP).value, SyncClaims(hubAccepts, hub, h, hubKey, devices);
            && (Forwards(AgentRun(agentAccepts, agent, devices[from], agentKey, devices, policies, h).0.net,
                         ip, key) <==>
                  key == h.publicKey && Contains(ParseCidr(h.network).value, ip))
            && (Relays(HubRun(hubAccepts, hub, h, hubKey, devices).0, ip, key) <==>
                  && PassesOn(hubAccepts, hub, h, hubKey)
                  && key == devices[to].publicKey && claims[to].Some? && !Shadowed(claims, devices, to)
                  && Contains(Cidr(ParseIp(h.ip).value, 16), ip) && ip != ParseIp(h.ip).value)
  {
    OtherAddress(devices, from, to);
    AgentSendsToHub(agentAccepts, agent, devices[from], agentKey, devices, policies, h,
                    ParseIp(devices[to].virtualIP).value, key);
    HubReaches(hubAccepts, hub, h, hubKey, devices, to, key);
    SyncForwards(hubAccepts, hub, h, hubKey, devices);
  }

  /** A refused sysctl does not fail the sync: on a host that did not pass packets on before, the hub then sends
      no address to anybody. */
  lemma RefusedSysctlServesNobody(accepts: Verdict, m: Machine, h: Hub, keyFile: string, devices: seq<Device>, ip: Ip,
                                  key: string)
    requires Willing(accepts) && ParseIp(h.ip).Some? && !PassesOn(accepts, m, h, keyFile)
    ensures HubRun(accepts, m, h, keyFile, devices).1
    ensures !Relays(HubRun(accepts, m, h, keyFile, devices).0, ip, key)
  {
    HubCompletes(accepts, m, h, keyFile, devices);
    SyncForwards(accepts, m, h, keyFile, devices);
  }

  /** Where nothing is refused, an agent's list completes exactly for a hub network that is a prefix written
      without host bits. */
  lemma AgentCompletes(accepts: Verdict, m: Machine, device: Device, keyFile: string, devices: seq<Device>,
                       policies: seq<NetworkPolicy>, h: Hub)
    requires Willing(accepts) && NoHubIds(devices) && ParseIp(device.virtualIP).Some? && h.publicKey != "" && h.ip != ""
    ensures AgentRun(accepts, m, device, keyFile, devices, policies, h).1 <==> Route(h.network).Some?
  {
    OnlyTheHub(device, devices, policies, h);
    HostCidr(device.virtualIP);
    ScriptRuns(accepts, m, device.virtualIP, keyFile, [HubPeer(h)]);
    HubIsExact(h);
  }

  lemma HubIsExact(h: Hub)
    requires h.publicKey != "" && h.ip != ""
    ensures AllExact([HubPeer(h)]) <==> Route(h.network).Some?
  {
    var p := HubPeer(h);
    assert Usable(p) && Claims(p) == [h.network] && p in [p];
  }

  /** Where nothing is refused, except perhaps the sysctl, the hub's list completes exactly if its own address is
      one. */
  lemma HubCompletes(accepts: Verdict, m: Machine, h: Hub, keyFile: string, devices: seq<Device>)
    requires Willing(accepts)
    ensures HubRun(accepts, m, h, keyFile, devices).1 <==> ParseIp(h.ip).Some?
  {
    HubRuns(accepts, m, h, keyFile, devices);
    if ParseIp(h.ip).Some? {
      SixteenCidr(h.ip);
    } else if ParseCidr(h.ip + "/16").Some? {
      HubAddressParses(h);
    }
  }
}
