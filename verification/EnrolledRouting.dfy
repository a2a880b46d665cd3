/** From enrolment to routing: what both hops do for every device table that registration can build. */
module EnrolledRouting {
  import opened Wrappers
  import opened Models
  import opened Addresses
  import opened Kernel
  import opened SqliteStore
  import opened Policy
  import opened Enrolment
  import opened Hub
  import opened TwoHop
  import TunnelMeaning

  /** `ListDevices`: every row once, newest first by the stamp of its registration. */
  ghost predicate Listing(t: Tables, devices: seq<Device>) {
    && UniqueIds(devices)
    && (forall d :: d in devices <==> d.id in t.devices && t.devices[d.id] == d)
    && (forall i, j :: 0 <= i < j < |devices| ==> devices[i].createdAt >= devices[j].createdAt)
  }

  /** The store's constraints give the distinct addresses that routing needs of a listing. */
  lemma ListingIsDistinct(steps: seq<Step>, devices: seq<Device>)
    requires Listing(Run(steps).tables, devices)
    ensures DistinctAddresses(devices)
    ensures forall d :: d in devices ==> InRange(d.virtualIP)
  {
    AddressBound(steps);
    var rows := Run(steps).tables.devices;
    forall i, j | 0 <= i < j < |devices| ensures ParseIp(devices[i].virtualIP) != ParseIp(devices[j].virtualIP) {
      assert devices[i] in devices && devices[j] in devices;
    }
  }

  /** 10.88.0.0/16, where every device address is drawn. */
  predicate InDrawnRange(ip: Ip) {
    Contains(Cidr(OctetsToIp(10, 88, 0, 0), 16), ip)
  }

  lemma SixteenCovers(hub: Ip, ip: Ip)
    requires InDrawnRange(ip)
    ensures Contains(Cidr(hub, 16), ip) <==> InDrawnRange(hub)
  {
  }

  /** The hub issues a command for this row, and one that names an address: it has a key and the hub network
      covers it. */
  predicate Offered(h: Hub, d: Device) {
    d.publicKey != "" && ParseIp(d.virtualIP).Some? && ParseCidr(h.network).Some?
    && Contains(ParseCidr(h.network).value, ParseIp(d.virtualIP).value)
  }

  lemma OfferedIsServed(h: Hub, d: Device)
    requires ParseIp(d.virtualIP).Some?
    ensures Served(h, d) <==> Offered(h, d)
  {
    AddressIsTrimmed(d.virtualIP);
    AddressText(d.virtualIP);
  }

  /** The hub's command for a row went through: it was offered, and nothing refused it. */
  lemma ClaimExactly(accepts: Verdict, issued: seq<Command>, h: Hub, devices: seq<Device>, j: nat)
    requires j < |devices| && ParseIp(devices[j].virtualIP).Some?
    ensures ClaimsOf(accepts, issued, h, devices)[j].Some? <==>
            Offered(h, devices[j]) && accepts(issued + Commands(DevicesLines(h, devices[..j])), CommandFor(devices[j]))
  {
    ClaimsAt(accepts, issued, h, devices, j);
    OfferedIsServed(h, devices[j]);
  }

  function CommandFor(d: Device): Command {
    SetPeer(d.publicKey, [d.virtualIP + "/32"])
  }

  /** Whatever sequence of invitations, registrations and deletions built the device table, for any hub, any
      policies and whatever commands were refused, once both lists have completed: every other agent sends a
      device's address to the hub and to nobody else, if the hub network covers it; and the hub sends it on to
      exactly that device, if its host passes packets on, the device's command went through, no older row with its
      key was accepted, the address is not the hub's own, and the hub's own address lies in the range that devices
      draw from. */
  lemma EnrolledDevicesAreRouted(steps: seq<Step>, devices: seq<Device>, policies: seq<NetworkPolicy>, h: Hub,
                                 agentAccepts: Verdict, agent: Machine, hubAccepts: Verdict, hub: Machine,
                                 agentKey: string, hubKey: string, from: nat, to: nat, key: string)
    requires Listing(Run(steps).tables, devices) && NoHubIds(devices)
    requires h.publicKey != "" && h.ip != "" && from < |devices| && to < |devices| && from != to
    requires AgentRun(agentAccepts, agent, devices[from], agentKey, devices, policies, h).1
    requires HubRun(hubAccepts, hub, h, hubKey, devices).1
    ensures ParseIp(h.ip).Some? && ParseCidr(h.network).Some? && ParseIp(devices[to].virtualIP).Some?
    ensures var ip, claims := ParseIp(devices[to].virtualIP).value, SyncClaims(hubAccepts, hub, h, hubKey, devices);
            && (Forwards(AgentRun(agentAccepts, agent, devices[from], agentKey, devices, policies, h).0.net,
                         ip, key) <==>
                  key == h.publicKey && Contains(ParseCidr(h.network).value, ip))
            && (Relays(HubRun(hubAccepts, hub, h, hubKey, devices).0, ip, key) <==>
                  && PassesOn(hubAccepts, hub, h, hubKey)
                  && key == devices[to].publicKey && claims[to].Some? && !Shadowed(claims, devices, to)
                  && ip != ParseIp(h.ip).value && InDrawnRange(ParseIp(h.ip).value))
  {
    assert devices[from] in devices && devices[to] in devices;
    ListingIsDistinct(steps, devices);
    TwoHopRouting(agentAccepts, agent, hubAccepts, hub, h, agentKey, hubKey, devices, policies, from, to, key);
    SixteenCovers(ParseIp(h.ip).value, ParseIp(devices[to].virtualIP).value);
  }

  // ---------------------------------------------------------------- which registration of a key is reached

  predicate SameKey(devices: seq<Device>, l: nat, to: nat)
    requires l < |devices| && to < |devices|
  {
    devices[l].publicKey == devices[to].publicKey
  }

  /** Every other accepted row with this row's key was registered later. */
  predicate FirstOfItsKey(claims: seq<Option<Claim>>, devices: seq<Device>, to: nat)
    requires to < |devices| == |claims|
  {
    forall l :: 0 <= l < |devices| && l != to && claims[l].Some? && SameKey(devices, l, to) ==>
      devices[to].createdAt < devices[l].createdAt
  }

  /** No two rows with one key carry the same stamp. */
  predicate StampsDiffer(devices: seq<Device>) {
    forall i, j :: 0 <= i < j < |devices| && devices[i].publicKey == devices[j].publicKey ==>
      devices[i].createdAt != devices[j].createdAt
  }

  lemma ShadowedByOlder(t: Tables, devices: seq<Device>, claims: seq<Option<Claim>>, to: nat)
    requires Listing(t, devices) && StampsDiffer(devices) && to < |devices| == |claims|
    ensures Shadowed(claims, devices, to) <==> !FirstOfItsKey(claims, devices, to)
  {
    forall l: nat | l < |devices| && l != to && devices[l].publicKey == devices[to].publicKey
      ensures l > to <==> devices[l].createdAt < devices[to].createdAt
    {
      assert l < to ==> devices[l].createdAt >= devices[to].createdAt;
      assert to < l ==> devices[to].createdAt >= devices[l].createdAt;
    }
  }

  /** A hub whose address lies in 10.88.0.0/16 reaches a row whose command went through exactly if no accepted row
      with the same key was registered before it (and it did not draw the hub's address): the listing is newest
      first and the last command for a key wins, so a device that registers again with its key cannot be reached
      until its old row is deleted. */
  lemma FirstRegistrationIsReached(steps: seq<Step>, devices: seq<Device>, h: Hub, accepts: Verdict, hub: Machine,
                                   keyFile: string, to: nat)
    requires Listing(Run(steps).tables, devices) && StampsDiffer(devices) && to < |devices|
    requires HubRun(accepts, hub, h, keyFile, devices).1 && SyncClaims(accepts, hub, h, keyFile, devices)[to].Some?
    requires ParseIp(h.ip).Some? ==> InDrawnRange(ParseIp(h.ip).value)
    ensures ParseIp(h.ip).Some? && ParseIp(devices[to].virtualIP).Some?
    ensures Relays(HubRun(accepts, hub, h, keyFile, devices).0, ParseIp(devices[to].virtualIP).value,
                   devices[to].publicKey)
            <==> PassesOn(accepts, hub, h, keyFile)
                 && FirstOfItsKey(SyncClaims(accepts, hub, h, keyFile, devices), devices, to)
                 && ParseIp(devices[to].virtualIP) != ParseIp(h.ip)
  {
    assert devices[to] in devices;
    ListingIsDistinct(steps, devices);
    HubReaches(accepts, hub, h, keyFile, devices, to, devices[to].publicKey);
    ShadowedByOlder(Run(steps).tables, devices, SyncClaims(accepts, hub, h, keyFile, devices), to);
    SixteenCovers(ParseIp(h.ip).value, ParseIp(devices[to].virtualIP).value);
    SyncForwards(accepts, hub, h, keyFile, devices);
  }

  // ---------------------------------------------------------------- tables of two devices

  const OPEN_INVITATION := Invitation("i", "h", "u", "g", true, 100, None)

  /** The open invitation is the only one. */
  ghost predicate Open(steps: seq<Step>) {
    var s := Run(steps);
    Consistent(s.tables) && s.tables.invitations == map["i" := OPEN_INVITATION]
  }

  lemma Opened() returns (steps: seq<Step>)
    ensures Open(steps) && Run(steps).tables.devices == map[] && Run(steps).phases == map[]
  {
    steps := [Invite(OPEN_INVITATION)];
    RunFromNext(INIT, [], Invite(OPEN_INVITATION));
    assert [] + steps == steps;
  }

  /** One request that runs from look-up to insertion. */
  lemma Enrol(steps: seq<Step>, r: nat, id: string, b1: Byte, draft: Device) returns (longer: seq<Step>)
    requires Open(steps) && r !in Run(steps).phases && id !in Run(steps).tables.devices
    requires forall d :: d in Run(steps).tables.devices ==> Run(steps).tables.devices[d].virtualIP != VirtualIP(0, b1)
    ensures steps <= longer && Open(longer) && Run(longer).phases.Keys == Run(steps).phases.Keys + {r}
    ensures Run(longer).tables.devices == Run(steps).tables.devices[id := DeviceRow(OPEN_INVITATION, id, 0, b1, draft)]
  {
    var lookup, insert := Lookup(r, OPEN_INVITATION.tokenHash, 0), Insert(r, id, 0, b1, draft, true);
    LookupPasses(Run(steps), r, OPEN_INVITATION, 0);
    RunFromNext(INIT, steps, lookup);
    InsertSucceeds(Run(steps + [lookup]), insert);
    RunFromNext(INIT, steps + [lookup], insert);
    longer := steps + [lookup] + [insert];
  }

  /** One device, with this key and this draw. */
  lemma OneEnrolled(key: string, a: Byte) returns (steps: seq<Step>, row: Device)
    ensures Open(steps) && Run(steps).phases.Keys == {0} && Run(steps).tables.devices == map[row.id := row]
    ensures row.id == ['a'] && row.publicKey == key && row.virtualIP == VirtualIP(0, a) && row.createdAt == 0
  {
    var draft := Device([], [], [], [], [], key, [], [], 0);
    var first := Opened();
    steps := Enrol(first, 0, ['a'], a, draft);
    row := DeviceRow(OPEN_INVITATION, ['a'], 0, a, draft);
  }

  /** Another one, registered later. */
  lemma AnotherEnrolled(steps: seq<Step>, row: Device, key: string, b: Byte) returns (longer: seq<Step>, newer: Device)
    requires Open(steps) && Run(steps).phases.Keys == {0} && Run(steps).tables.devices == map[row.id := row]
    requires row.id == ['a'] && row.createdAt == 0 && row.virtualIP != VirtualIP(0, b)
    ensures steps <= longer && Run(longer).tables.devices == map[row.id := row, newer.id := newer]
    ensures newer.id == ['b'] && newer.publicKey == key && newer.virtualIP == VirtualIP(0, b) && newer.createdAt == 1
  {
    var draft := Device([], [], [], [], [], key, [], [], 1);
    longer := Enrol(steps, 1, ['b'], b, draft);
    newer := DeviceRow(OPEN_INVITATION, ['b'], 0, b, draft);
  }

  /** The table was listed like this once. */
  ghost predicate WasListed(steps: seq<Step>, devices: seq<Device>) {
    exists k :: 0 <= k <= |steps| && Listing(Run(steps[..k]).tables, devices)
  }

  /** Two devices, registered one after the other with these keys and these draws; the newer is listed first. */
  lemma TwoEnrolled(key: string, b: Byte, other: string, a: Byte) returns (steps: seq<Step>, devices: seq<Device>)
    requires a != b
    ensures Listing(Run(steps).tables, devices) && |devices| == 2 && NoHubIds(devices) && StampsDiffer(devices)
    ensures devices[0].publicKey == key && devices[0].virtualIP == VirtualIP(0, b)
    ensures devices[1].publicKey == other && devices[1].virtualIP == VirtualIP(0, a)
    ensures devices[1].createdAt < devices[0].createdAt && devices[0].id != devices[1].id
    ensures WasListed(steps, devices[1..])
  {
    if VirtualIP(0, a) == VirtualIP(0, b) {
      VirtualInjective(0, a, 0, b);
    }
    var first, older := OneEnrolled(other, a);
    var newer;
    steps, newer := AnotherEnrolled(first, older, key, b);
    devices := [newer, older];
    TwoRows(Run(steps).tables, older, newer);
    assert steps[..|first|] == first && devices[1..] == [older];
  }

  lemma TwoRows(t: Tables, older: Device, newer: Device)
    requires older.id != newer.id && t.devices == map[older.id := older, newer.id := newer]
    requires older.createdAt <= newer.createdAt
    ensures Listing(t, [newer, older])
  {
  }

  // ---------------------------------------------------------------- hubs that do not reach a device

  /** The hub with the default settings. */
  function DefaultHub(publicKey: string): Hub {
    WireGuardHub(VirtualIP(0, 1), VirtualIP(0, 0) + "/16", 41641, publicKey, "")
  }

  lemma DefaultHubParses(h: Hub)
    requires h == DefaultHub(h.publicKey)
    ensures h.ip != "" && ParseIp(h.ip) == Some(VirtualNumber(0, 1)) && InDrawnRange(VirtualNumber(0, 1))
    ensures Route(h.network) == Some(Cidr(VirtualNumber(0, 0), 16))
  {
    VirtualRoundTrip(0, 1);
    VirtualRoundTrip(0, 0);
    SixteenCidr(VirtualIP(0, 0));
    AddressText(VirtualIP(0, 1));
    DefaultPrefix();
  }

  lemma DefaultPrefix()
    ensures Masked(Cidr(VirtualNumber(0, 0), 16)) == Cidr(VirtualNumber(0, 0), 16)
  {
    BlockSizes();
  }

  /** Where nothing is refused, the default hub accepts every row that has a key. */
  lemma DefaultHubOffers(h: Hub, d: Device, b: Byte)
    requires h == DefaultHub(h.publicKey) && d.virtualIP == VirtualIP(0, b) && d.publicKey != ""
    ensures Offered(h, d)
  {
    DefaultHubParses(h);
    VirtualRoundTrip(0, b);
  }

  lemma DefaultHubClaims(h: Hub, accepts: Verdict, hub: Machine, keyFile: string, devices: seq<Device>, j: nat, b: Byte)
    requires h == DefaultHub(h.publicKey) && TunnelMeaning.Willing(accepts) && j < |devices|
    requires devices[j].virtualIP == VirtualIP(0, b) && devices[j].publicKey != ""
    ensures SyncClaims(accepts, hub, h, keyFile, devices)[j].Some? && HubRun(accepts, hub, h, keyFile, devices).1
  {
    DefaultHubParses(h);
    DefaultHubOffers(h, devices[j], b);
    HubCompletes(accepts, hub, h, keyFile, devices);
    var issued := hub.issued + Commands(HubHead(h, keyFile));
    ClaimExactly(accepts, issued, h, devices, j);
    WillingAccepts(accepts, issued + Commands(DevicesLines(h, devices[..j])), CommandFor(devices[j]));
  }

  lemma WillingAccepts(accepts: Verdict, issued: seq<Command>, command: Command)
    requires TunnelMeaning.Willing(accepts) && command != EnableForwarding
    ensures accepts(issued, command)
  {
  }

  /** A device registers twice with one key: the default hub sends its new address to nobody, and its old one still
      to that key. */
  lemma NewRegistrationIsNotReached(accepts: Verdict, hub: Machine, keyFile: string, h: Hub, key: string, k: string)
    returns (steps: seq<Step>, devices: seq<Device>)
    requires TunnelMeaning.Willing(accepts) && h == DefaultHub(h.publicKey) && key != ""
    requires PassesOn(accepts, hub, h, keyFile)
    ensures Listing(Run(steps).tables, devices) && |devices| == 2 && devices[0].publicKey == devices[1].publicKey == key
    ensures var m := HubRun(accepts, hub, h, keyFile, devices).0;
            && devices[0].createdAt > devices[1].createdAt
            && ParseIp(devices[0].virtualIP).Some? && ParseIp(devices[1].virtualIP).Some?
            && !Forwards(m.net, ParseIp(devices[0].virtualIP).value, k)
            && Relays(m, ParseIp(devices[1].virtualIP).value, key)
  {
    steps, devices := TwoEnrolled(key, 3, key, 2);
    DefaultHubParses(h);
    VirtualRoundTrip(0, 2);
    DefaultHubClaims(h, accepts, hub, keyFile, devices, 0, 3);
    DefaultHubClaims(h, accepts, hub, keyFile, devices, 1, 2);
    FirstRegistrationIsReached(steps, devices, h, accepts, hub, keyFile, 0);
    FirstRegistrationIsReached(steps, devices, h, accepts, hub, keyFile, 1);
    var claims := SyncClaims(accepts, hub, h, keyFile, devices);
    assert !FirstOfItsKey(claims, devices, 0) by {
      assert SameKey(devices, 1, 0);
    }
    ListingIsDistinct(steps, devices);
    HubReaches(accepts, hub, h, keyFile, devices, 0, k);
    assert FirstOfItsKey(claims, devices, 1);
  }

  /** A device draws the default hub's own address: the hub sends it to nobody, although its command went through. */
  lemma HubAddressIsNotReached(accepts: Verdict, hub: Machine, keyFile: string, h: Hub, key: string, other: string,
                               k: string)
    returns (steps: seq<Step>, devices: seq<Device>)
    requires TunnelMeaning.Willing(accepts) && h == DefaultHub(h.publicKey) && key != ""
    ensures Listing(Run(steps).tables, devices) && |devices| == 2
    ensures devices[0].virtualIP == h.ip && ParseIp(h.ip).Some?
    ensures SyncClaims(accepts, hub, h, keyFile, devices)[0].Some?
    ensures !Forwards(HubRun(accepts, hub, h, keyFile, devices).0.net, ParseIp(h.ip).value, k)
  {
    steps, devices := TwoEnrolled(key, 1, other, 2);
    DefaultHubParses(h);
    DefaultHubClaims(h, accepts, hub, keyFile, devices, 0, 1);
    ListingIsDistinct(steps, devices);
    HubReaches(accepts, hub, h, keyFile, devices, 0, k);
  }

  /** A hub set to address 10.99.0.1 and network 10.0.0.0/8. */
  function ForeignHub(publicKey: string): Hub {
    WireGuardHub(Dotted(10, 99, 0, 1), Dotted(10, 0, 0, 0) + "/8", 41641, publicKey, "")
  }

  lemma ForeignAddress()
    ensures Dotted(10, 99, 0, 1) != "" && ParseIp(Dotted(10, 99, 0, 1)) == Some(OctetsToIp(10, 99, 0, 1))
  {
    AddressRoundTrip(10, 99, 0, 1);
    AddressText(Dotted(10, 99, 0, 1));
  }

  lemma EightCidr(ip: string)
    requires ParseIp(ip).Some?
    ensures ParseCidr(ip + "/8") == Some(Cidr(ParseIp(ip).value, 8))
  {
    assert ValueOf(['8']) == 8 && IsNumeral(['8']);
    CidrText(ip, ['8'], 8);
    assert ip + "/8" == ip + ['/'] + ['8'];
  }

  lemma ForeignNumbers(b1: Byte)
    ensures !InDrawnRange(OctetsToIp(10, 99, 0, 1))
    ensures Masked(Cidr(OctetsToIp(10, 0, 0, 0), 8)) == Cidr(OctetsToIp(10, 0, 0, 0), 8)
    ensures Contains(Cidr(OctetsToIp(10, 0, 0, 0), 8), VirtualNumber(0, b1))
  {
    BlockSizes();
    Quotient(VirtualNumber(0, b1), 0x100_0000, 10);
  }

  lemma ForeignHubParses(h: Hub, b1: Byte)
    requires h == ForeignHub(h.publicKey)
    ensures h.ip != "" && ParseIp(h.ip).Some? && !InDrawnRange(ParseIp(h.ip).value)
    ensures Route(h.network).Some? && Contains(ParseCidr(h.network).value, VirtualNumber(0, b1))
  {
    ForeignAddress();
    AddressRoundTrip(10, 0, 0, 0);
    EightCidr(Dotted(10, 0, 0, 0));
    ForeignNumbers(b1);
  }

  /** A hub outside the range is sent every address its network covers, and reaches no device, whatever commands were
      refused, once both lists have completed. */
  lemma OutsideHubServesNobody(steps: seq<Step>, devices: seq<Device>, policies: seq<NetworkPolicy>, h: Hub,
                               agentAccepts: Verdict, agent: Machine, hubAccepts: Verdict, hub: Machine,
                               agentKey: string, hubKey: string, from: nat, to: nat, key: string)
    requires Listing(Run(steps).tables, devices) && NoHubIds(devices)
    requires h.publicKey != "" && h.ip != "" && from < |devices| && to < |devices| && from != to
    requires AgentRun(agentAccepts, agent, devices[from], agentKey, devices, policies, h).1
    requires HubRun(hubAccepts, hub, h, hubKey, devices).1
    requires ParseIp(h.ip).Some? ==> !InDrawnRange(ParseIp(h.ip).value)
    ensures ParseCidr(h.network).Some? && ParseIp(devices[to].virtualIP).Some?
    ensures var ip := ParseIp(devices[to].virtualIP).value;
            && (Forwards(AgentRun(agentAccepts, agent, devices[from], agentKey, devices, policies, h).0.net, ip, key)
                <==> key == h.publicKey && Contains(ParseCidr(h.network).value, ip))
            && !Forwards(HubRun(hubAccepts, hub, h, hubKey, devices).0.net, ip, key)
  {
    EnrolledDevicesAreRouted(steps, devices, policies, h, agentAccepts, agent, hubAccepts, hub, agentKey, hubKey,
                             from, to, key);
    ListingIsDistinct(steps, devices);
    assert devices[to] in devices;
    HubReaches(hubAccepts, hub, h, hubKey, devices, to, key);
    SixteenCovers(ParseIp(h.ip).value, ParseIp(devices[to].virtualIP).value);
  }

  /** The hub's /16 is fixed: with hub address 10.99.0.1 and network 10.0.0.0/8, two enrolled devices, and nothing
      refused, an agent sends the other device's address to the hub, and the hub sends it to nobody. */
  lemma ForeignHubServesNobody(accepts: Verdict, agent: Machine, hub: Machine, keyFile: string,
                               policies: seq<NetworkPolicy>, h: Hub, key: string)
    returns (steps: seq<Step>, devices: seq<Device>)
    requires TunnelMeaning.Willing(accepts) && h.publicKey != "" && h == ForeignHub(h.publicKey)
    ensures Listing(Run(steps).tables, devices) && |devices| == 2 && Offered(h, devices[1])
    ensures var ip := ParseIp(devices[1].virtualIP).value;
            && Forwards(AgentRun(accepts, agent, devices[0], keyFile, devices, policies, h).0.net, ip, h.publicKey)
            && !Forwards(HubRun(accepts, hub, h, keyFile, devices).0.net, ip, key)
  {
    steps, devices := TwoEnrolled(['k'], 3, ['l'], 2);
    ForeignHubParses(h, 2);
    VirtualRoundTrip(0, 2);
    VirtualRoundTrip(0, 3);
    AgentCompletes(accepts, agent, devices[0], keyFile, devices, policies, h);
    HubCompletes(accepts, hub, h, keyFile, devices);
    OutsideHubServesNobody(steps, devices, policies, h, accepts, agent, accepts, hub, keyFile, keyFile,
                           0, 1, h.publicKey);
    OutsideHubServesNobody(steps, devices, policies, h, accepts, agent, accepts, hub, keyFile, keyFile, 0, 1, key);
  }
}
