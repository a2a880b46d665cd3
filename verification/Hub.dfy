/** The controller's WireGuard hub: the peer it offers to agents, and the interface it rebuilds from the devices. */
module Hub {
  import opened Wrappers
  import opened Models
  import opened Addresses
  import opened Kernel
  import AgentTunnel
  import TunnelMeaning

  datatype Hub = WireGuardHub(ip: string, network: string, port: int, publicKey: string, endpoint: string)

  /** The peer every device's configuration ends with when the hub is on. */
  function HubPeer(h: Hub): NetworkPeer {
    NetworkPeer(AgentTunnel.HUB_ID, "Linkbit Hub", h.ip, h.publicKey, h.endpoint, [h.network])
  }

  predicate InHubNetwork(h: Hub, virtualIP: string) {
    var ip, network := ParseIp(TrimSpace(virtualIP)), ParseCidr(h.network);
    ip.Some? && network.Some? && Contains(network.value, ip.value)
  }

  predicate Eligible(h: Hub, d: Device) {
    d.publicKey != "" && d.virtualIP != "" && InHubNetwork(h, d.virtualIP)
  }

  function HubHead(h: Hub, keyFile: string): seq<Line> {
    [Line(LinkDel, false), Line(LinkAdd, true), Line(SetKeyAndPort(keyFile, h.port), true),
     Line(AddressReplace(h.ip + "/16"), true), Line(SetMtu(AgentTunnel.MTU), true), Line(SetUp, true),
     Line(EnableForwarding, false)]
  }

  /** A device whose command fails is skipped. */
  function DeviceLines(h: Hub, d: Device): seq<Line> {
    if Eligible(h, d) then [Line(SetPeer(d.publicKey, [d.virtualIP + "/32"]), false)] else []
  }

  function DevicesLines(h: Hub, devices: seq<Device>): seq<Line> {
    if devices == [] then []
    else DevicesLines(h, devices[..|devices| - 1]) + DeviceLines(h, devices[|devices| - 1])
  }

  function HubScript(h: Hub, keyFile: string, devices: seq<Device>): seq<Line> {
    HubHead(h, keyFile) + DevicesLines(h, devices)
  }

  method CreateHubInterface(runner: CommandRunner, h: Hub, keyFile: string) returns (ok: bool)
    modifies runner
    ensures (runner.State(), ok) == RunLines(runner.accepts, old(runner.State()), HubHead(h, keyFile))
  {
    ghost var lines, start := HubHead(h, keyFile), runner.State();
    var commands := [LinkDel, LinkAdd, SetKeyAndPort(keyFile, h.port), AddressReplace(h.ip + "/16"),
                     SetMtu(AgentTunnel.MTU), SetUp, EnableForwarding];
    for i := 0 to |commands|
      invariant RunLines(runner.accepts, start, lines) == RunLines(runner.accepts, runner.State(), lines[i..])
    {
      ok := runner.Run(commands[i]);
      assert lines[i..][1..] == lines[i + 1..];
      if !ok && commands[i] != LinkDel && commands[i] != EnableForwarding {
        return;
      }
    }
    ok := true;
  }

  /** `Sync`: rebuilds the interface; `keyFile` is what `writeHubPrivateKey` gave. */
  method Sync(runner: CommandRunner, h: Hub, keyFile: Option<string>, devices: seq<Device>) returns (ok: bool)
    modifies runner
    ensures keyFile.None? ==> !ok && runner.State() == old(runner.State())
    ensures keyFile.Some? ==>
      (runner.State(), ok) == RunLines(runner.accepts, old(runner.State()), HubScript(h, keyFile.value, devices))
  {
    if keyFile.None? {
      return false;
    }
    ghost var start, head := runner.State(), HubHead(h, keyFile.value);
    RunLinesConcat(runner.accepts, start, head, DevicesLines(h, devices));
    ok := CreateHubInterface(runner, h, keyFile.value);
    if !ok {
      return;
    }
    ghost var mid := runner.State();
    for i := 0 to |devices|
      invariant RunLines(runner.accepts, mid, DevicesLines(h, devices[..i])) == (runner.State(), true)
    {
      var device := devices[i];
      assert devices[..i + 1][..i] == devices[..i];
      RunLinesConcat(runner.accepts, mid, DevicesLines(h, devices[..i]), DeviceLines(h, device));
      if device.publicKey == "" || device.virtualIP == "" {
        continue;
      }
      if !InHubNetwork(h, device.virtualIP) {
        continue;
      }
      ghost var line := Line(SetPeer(device.publicKey, [device.virtualIP + "/32"]), false);
      AgentTunnel.OneLine(runner.accepts, runner.State(), line);
      var _ := runner.Run(SetPeer(device.publicKey, [device.virtualIP + "/32"]));
    }
    assert devices[..|devices|] == devices;
    ok := true;
  }

  // ---------------------------------------------------------------- what the hub's table becomes

  function AsPeer(d: Device): NetworkPeer {
    NetworkPeer(d.id, d.name, d.virtualIP, d.publicKey, "", [])
  }

  /** The devices the hub can reach: eligible, and with an address that is written as one. */
  predicate Served(h: Hub, d: Device) {
    Eligible(h, d) && ParseIp(d.virtualIP).Some?
  }

  /** The command for this device goes through, after everything that was issued before it. */
  predicate Accepted(accepts: Verdict, issued: seq<Command>, h: Hub, devices: seq<Device>, j: nat)
    requires j < |devices|
  {
    var d, before := devices[j], issued + Commands(DevicesLines(h, devices[..j]));
    Served(h, d) && accepts(before, SetPeer(d.publicKey, [d.virtualIP + "/32"]))
  }

  function AcceptedPeers(accepts: Verdict, issued: seq<Command>, h: Hub, devices: seq<Device>): seq<NetworkPeer> {
    if devices == [] then []
    else
      var n := |devices| - 1;
      AcceptedPeers(accepts, issued, h, devices[..n])
      + if Accepted(accepts, issued, h, devices, n) then [AsPeer(devices[n])] else []
  }

  function HubBase(h: Hub, keyFile: string): Iface {
    NEW_IFACE.(key := Some(keyFile), port := Some(h.port), mtu := AgentTunnel.MTU, up := true,
              addresses := if ParseCidr(h.ip + "/16").Some? then {ParseCidr(h.ip + "/16").value} else {})
  }

  lemma HubHeadRuns(accepts: Verdict, m: Machine, h: Hub, keyFile: string)
    ensures var (m', ok) := RunLines(accepts, m, HubHead(h, keyFile));
            && (ok ==> ParseCidr(h.ip + "/16").Some? && m'.net == Some(HubBase(h, keyFile)))
            && (TunnelMeaning.Willing(accepts) && ParseCidr(h.ip + "/16").Some? ==> ok)
  {
    var link := [Line(LinkDel, false), Line(LinkAdd, true)];
    var key, addr := Line(SetKeyAndPort(keyFile, h.port), true), Line(AddressReplace(h.ip + "/16"), true);
    var tail := [Line(SetMtu(AgentTunnel.MTU), true), Line(SetUp, true), Line(EnableForwarding, false)];
    assert HubHead(h, keyFile) == link + [key, addr] + tail;
    RunLinesConcat(accepts, m, link, [key, addr]);
    RunLinesConcat(accepts, m, link + [key, addr], tail);
    TunnelMeaning.FreshLink(accepts, m);
    var (m1, ok1) := RunLines(accepts, m, link);
    if ok1 {
      HubAddressRuns(accepts, m1, h, keyFile);
      var (m3, ok3) := RunLines(accepts, m1, [key, addr]);
      if ok3 {
        HubTailRuns(accepts, m3);
      }
    }
  }

  lemma HubAddressRuns(accepts: Verdict, m: Machine, h: Hub, keyFile: string)
    requires m.net == Some(NEW_IFACE)
    ensures var (m', ok) := RunLines(accepts, m,
                                     [Line(SetKeyAndPort(keyFile, h.port), true),
                                      Line(AddressReplace(h.ip + "/16"), true)]);
            && (ok ==> ParseCidr(h.ip + "/16").Some?)
            && (ok ==> m'.net == Some(NEW_IFACE.(key := Some(keyFile), port := Some(h.port),
                                          addresses := {ParseCidr(h.ip + "/16").value})))
            && (TunnelMeaning.Willing(accepts) && ParseCidr(h.ip + "/16").Some? ==> ok)
  {
    var key, addr := Line(SetKeyAndPort(keyFile, h.port), true), Line(AddressReplace(h.ip + "/16"), true);
    AgentTunnel.TwoLines(accepts, m, key, addr);
    AgentTunnel.OneLine(accepts, m, key);
    AgentTunnel.OneLine(accepts, Perform(accepts, m, key.command).0, addr);
    assert forall c: Cidr :: {} + {c} == {c};
  }

  lemma HubTailRuns(accepts: Verdict, m: Machine)
    requires m.net.Some?
    ensures var (m', ok) := RunLines(accepts, m,
                                     [Line(SetMtu(AgentTunnel.MTU), true), Line(SetUp, true),
                                      Line(EnableForwarding, false)]);
            && (ok ==> m'.net == Some(m.net.value.(mtu := AgentTunnel.MTU, up := true)))
            && (TunnelMeaning.Willing(accepts) ==> ok)
  {
    var tail := [Line(EnableForwarding, false)];
    assert [Line(SetMtu(AgentTunnel.MTU), true), Line(SetUp, true), Line(EnableForwarding, false)] ==
           AgentTunnel.UP_LINES + tail;
    RunLinesConcat(accepts, m, AgentTunnel.UP_LINES, tail);
    TunnelMeaning.UpRuns(accepts, m);
    var (m', ok) := RunLines(accepts, m, AgentTunnel.UP_LINES);
    if ok {
      AgentTunnel.OneLine(accepts, m', Line(EnableForwarding, false));
    }
  }

  /** A served device's `/32` is its own address and nothing else. */
  lemma ServedPrefix(d: Device)
    requires ParseIp(d.virtualIP).Some?
    ensures TunnelMeaning.Single(AsPeer(d)) && TunnelMeaning.PrefixOf(AsPeer(d)) == Cidr(ParseIp(d.virtualIP).value, 32)
  {
    HostCidr(d.virtualIP);
    HostContains(ParseIp(d.virtualIP).value, 0);
  }

  lemma UnservedPrefix(d: Device)
    requires ParseIp(d.virtualIP).None?
    ensures Prefix(d.virtualIP + "/32").None?
  {
    NoCidr(d.virtualIP, "32");
    assert d.virtualIP + "/" + "32" == d.virtualIP + "/32";
  }

  lemma SetPeerPerforms(accepts: Verdict, m: Machine, key: string, cidr: string)
    requires m.net.Some?
    ensures Perform(accepts, m, SetPeer(key, [cidr])).0.net ==
            if accepts(m.issued, SetPeer(key, [cidr])) && Prefix(cidr).Some?
            then Some(GivePrefix(m.net.value, key, Prefix(cidr).value)) else m.net
  {
  }

  lemma DeviceRuns(accepts: Verdict, m: Machine, h: Hub, d: Device)
    requires m.net.Some?
    ensures var (m', ok) := RunLines(accepts, m, DeviceLines(h, d));
            var taken := Served(h, d) && accepts(m.issued, SetPeer(d.publicKey, [d.virtualIP + "/32"]));
            ok && m'.net == Some(if taken then TunnelMeaning.AfterPeer(m.net.value, AsPeer(d)) else m.net.value)
  {
    if Eligible(h, d) {
      AgentTunnel.OneLine(accepts, m, Line(SetPeer(d.publicKey, [d.virtualIP + "/32"]), false));
      SetPeerPerforms(accepts, m, d.publicKey, d.virtualIP + "/32");
      if ParseIp(d.virtualIP).Some? {
        ServedPrefix(d);
      } else {
        UnservedPrefix(d);
      }
    }
  }

  lemma AcceptedStep(accepts: Verdict, issued: seq<Command>, h: Hub, devices: seq<Device>, i: Iface)
    requires devices != []
    ensures var n := |devices| - 1;
            var before := TunnelMeaning.AfterPeers(i, AcceptedPeers(accepts, issued, h, devices[..n]));
            TunnelMeaning.AfterPeers(i, AcceptedPeers(accepts, issued, h, devices)) ==
            if Accepted(accepts, issued, h, devices, n) then TunnelMeaning.AfterPeer(before, AsPeer(devices[n]))
                else before
  {
    var n := |devices| - 1;
    var before, all := AcceptedPeers(accepts, issued, h, devices[..n]), AcceptedPeers(accepts, issued, h, devices);
    if Accepted(accepts, issued, h, devices, n) {
      assert all == before + [AsPeer(devices[n])] && all[..|all| - 1] == before;
    } else {
      assert all == before;
    }
  }

  /** Device commands never abort: each is issued, and each that goes through takes effect. */
  lemma {:induction false} DevicesRun(accepts: Verdict, m: Machine, h: Hub, devices: seq<Device>)
    requires m.net.Some?
    ensures var (m', ok) := RunLines(accepts, m, DevicesLines(h, devices));
            && ok && m'.issued == m.issued + Commands(DevicesLines(h, devices))
            && m'.net == Some(TunnelMeaning.AfterPeers(m.net.value, AcceptedPeers(accepts, m.issued, h, devices)))
  {
    if devices == [] {
      assert m.issued + [] == m.issued;
    } else {
      var n := |devices| - 1;
      var before, d := devices[..n], devices[n];
      DevicesRun(accepts, m, h, before);
      var (mid, _) := RunLines(accepts, m, DevicesLines(h, before));
      RunLinesConcat(accepts, m, DevicesLines(h, before), DeviceLines(h, d));
      DeviceRuns(accepts, mid, h, d);
      AcceptedStep(accepts, m.issued, h, devices, m.net.value);
      AllIssued(accepts, m, DevicesLines(h, devices));
    }
  }

  /** What a hub becomes when its sync completes, whichever of the device commands the world refuses; in a
      willing world, which may refuse the sysctl, it completes exactly if the hub's own address is one. */
  lemma HubRuns(accepts: Verdict, m: Machine, h: Hub, keyFile: string, devices: seq<Device>)
    ensures var (m', ok) := RunLines(accepts, m, HubScript(h, keyFile, devices));
            var issued := m.issued + Commands(HubHead(h, keyFile));
            && (ok ==> ParseCidr(h.ip + "/16").Some?)
            && (ok ==> m'.net == Some(TunnelMeaning.AfterPeers(HubBase(h, keyFile),
                                                               AcceptedPeers(accepts, issued, h, devices))))
            && (TunnelMeaning.Willing(accepts) && ParseCidr(h.ip + "/16").Some? ==> ok)
  {
    RunLinesConcat(accepts, m, HubHead(h, keyFile), DevicesLines(h, devices));
    HubHeadRuns(accepts, m, h, keyFile);
    var (m', ok) := RunLines(accepts, m, HubHead(h, keyFile));
    if ok {
      AllIssued(accepts, m, HubHead(h, keyFile));
      DevicesRun(accepts, m', h, devices);
    }
  }

  // ---------------------------------------------------------------- what a sync issues, command by command

  /** What comes before the sysctl. */
  function LinkCommands(h: Hub, keyFile: string): seq<Command> {
    [LinkDel, LinkAdd, SetKeyAndPort(keyFile, h.port), AddressReplace(h.ip + "/16"), SetMtu(1180), SetUp]
  }

  /** Whether the host passes packets on after a sync: it did before, or the sysctl was let through. */
  predicate PassesOn(accepts: Verdict, m: Machine, h: Hub, keyFile: string) {
    m.ipForward || accepts(m.issued + LinkCommands(h, keyFile), EnableForwarding)
  }

  /** The commands of the devices at these places. */
  function PeersAt(devices: seq<Device>, at: seq<nat>): seq<Command>
    requires forall k :: k in at ==> k < |devices|
  {
    seq(|at|, i requires 0 <= i < |at| =>
          assert at[i] in at; SetPeer(devices[at[i]].publicKey, [devices[at[i]].virtualIP + "/32"]))
  }

  /** The hub gives this device a command. */
  predicate InNetwork(h: Hub, d: Device) {
    && d.publicKey != "" && d.virtualIP != ""
    && ParseIp(TrimSpace(d.virtualIP)).Some? && ParseCidr(h.network).Some?
    && Contains(ParseCidr(h.network).value, ParseIp(TrimSpace(d.virtualIP)).value)
  }

  lemma DeviceCommand(h: Hub, d: Device)
    ensures Commands(DeviceLines(h, d)) ==
            if InNetwork(h, d) then [SetPeer(d.publicKey, [d.virtualIP + "/32"])] else []
  {
  }

  lemma PeersAtNext(devices: seq<Device>, at: seq<nat>, n: nat)
    requires n == |devices| - 1 && forall k :: k in at ==> k < n
    ensures PeersAt(devices, at) == PeersAt(devices[..n], at)
    ensures PeersAt(devices, at + [n]) ==
            PeersAt(devices[..n], at) + [SetPeer(devices[n].publicKey, [devices[n].virtualIP + "/32"])]
  {
    forall i | 0 <= i < |at| ensures at[i] < n && devices[..n][at[i]] == devices[at[i]] {
      assert at[i] in at;
    }
  }

  lemma {:induction false} DeviceCommands(h: Hub, devices: seq<Device>) returns (at: seq<nat>)
    ensures Places(devices, (d: Device) => InNetwork(h, d), at)
    ensures Commands(DevicesLines(h, devices)) == PeersAt(devices, at)
  {
    at := [];
    if devices != [] {
      var n := |devices| - 1;
      var before := DeviceCommands(h, devices[..n]);
      at := if InNetwork(h, devices[n]) then before + [n] else before;
      PlacesNext(devices, (d: Device) => InNetwork(h, d), before, at);
      CommandsConcat(DevicesLines(h, devices[..n]), DeviceLines(h, devices[n]));
      DeviceCommand(h, devices[n]);
      PeersAtNext(devices, before, n);
      assert PeersAt(devices[..n], before) + [] == PeersAt(devices[..n], before);
    }
  }

  lemma HeadCommands(h: Hub, keyFile: string)
    ensures Commands(HubHead(h, keyFile)) == LinkCommands(h, keyFile) + [EnableForwarding]
  {
  }

  lemma Reassociate(a: seq<Command>, b: seq<Command>, c: seq<Command>)
    ensures a + (b + c) == a + b + c
  {
  }

  /** Whenever a sync completes it has issued, in this order, the link's commands, the sysctl, and a command for
      each device that has a key and an address in the hub network, in the order of the devices. */
  lemma SyncIssues(accepts: Verdict, m: Machine, h: Hub, keyFile: string, devices: seq<Device>) returns (at: seq<nat>)
    requires RunLines(accepts, m, HubScript(h, keyFile, devices)).1
    ensures Places(devices, (d: Device) => InNetwork(h, d), at)
    ensures RunLines(accepts, m, HubScript(h, keyFile, devices)).0.issued ==
            m.issued + (LinkCommands(h, keyFile) + [EnableForwarding]) + PeersAt(devices, at)
  {
    at := DeviceCommands(h, devices);
    AllIssued(accepts, m, HubScript(h, keyFile, devices));
    CommandsConcat(HubHead(h, keyFile), DevicesLines(h, devices));
    HeadCommands(h, keyFile);
    Reassociate(m.issued, Commands(HubHead(h, keyFile)), PeersAt(devices, at));
  }

  lemma {:induction false} NoSysctl(h: Hub, devices: seq<Device>)
    ensures forall line :: line in DevicesLines(h, devices) ==> line.command != EnableForwarding
  {
    if devices != [] {
      NoSysctl(h, devices[..|devices| - 1]);
    }
  }

  /** After a completed sync the host passes packets on exactly if it did before or the sysctl, whose refusal does
      not fail the sync, was let through. */
  lemma SyncForwards(accepts: Verdict, m: Machine, h: Hub, keyFile: string, devices: seq<Device>)
    requires RunLines(accepts, m, HubScript(h, keyFile, devices)).1
    ensures RunLines(accepts, m, HubScript(h, keyFile, devices)).0.ipForward <==> PassesOn(accepts, m, h, keyFile)
  {
    var head, rest := HubHead(h, keyFile), DevicesLines(h, devices);
    RunLinesConcat(accepts, m, head, rest);
    HeadForwards(accepts, m, h, keyFile);
    NoSysctl(h, devices);
    ForwardingStays(accepts, RunLines(accepts, m, head).0, rest);
  }

  lemma HeadForwards(accepts: Verdict, m: Machine, h: Hub, keyFile: string)
    requires RunLines(accepts, m, HubHead(h, keyFile)).1
    ensures RunLines(accepts, m, HubHead(h, keyFile)).0.ipForward <==> PassesOn(accepts, m, h, keyFile)
  {
    var head := HubHead(h, keyFile);
    var link, last := head[..6], Line(EnableForwarding, false);
    assert head == link + [last];
    RunLinesConcat(accepts, m, link, [last]);
    ForwardingStays(accepts, m, link);
    AllIssued(accepts, m, link);
    assert Commands(link) == LinkCommands(h, keyFile);
    AgentTunnel.OneLine(accepts, RunLines(accepts, m, link).0, last);
  }
}
