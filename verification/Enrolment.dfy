/** Device registration: each request runs its store statements one at a time, interleaved with every
    other request. */
module Enrolment {
  import opened Wrappers
  import opened Models
  import opened Addresses
  import opened SqliteStore

  // ---------------------------------------------------------------- virtual addresses

  type Byte = n: nat | n < 256

  /** `virtualIPFromUUID`, from the first two bytes of the uuid. */
  function VirtualIP(b0: Byte, b1: Byte): string {
    Dotted(10, 88, b0, b1)
  }

  function VirtualNumber(b0: Byte, b1: Byte): Ip {
    OctetsToIp(10, 88, b0, b1)
  }

  /** The printed address parses back to the same octets, which lie in 10.88.0.0/16. */
  lemma VirtualRoundTrip(b0: Byte, b1: Byte)
    ensures ParseIp(VirtualIP(b0, b1)) == Some(VirtualNumber(b0, b1))
    ensures Contains(Cidr(OctetsToIp(10, 88, 0, 0), 16), VirtualNumber(b0, b1))
    ensures VirtualNumber(b0, b1) == VirtualNumber(0, 0) + 256 * b0 + b1
  {
    AddressRoundTrip(10, 88, b0, b1);
    BlockSizes();
    Quotient(VirtualNumber(b0, b1), 0x1_0000, 2648);
    Quotient(OctetsToIp(10, 88, 0, 0), 0x1_0000, 2648);
  }

  /** The printer is injective on its two bytes. */
  lemma VirtualInjective(a0: Byte, a1: Byte, b0: Byte, b1: Byte)
    requires VirtualIP(a0, a1) == VirtualIP(b0, b1)
    ensures a0 == b0 && a1 == b1
  {
    VirtualRoundTrip(a0, a1);
    VirtualRoundTrip(b0, b1);
  }

  /** Nothing keeps a device from drawing the hub's own default address. */
  lemma MayDrawTheHubAddress()
    ensures VirtualIP(0, 1) == "10.88.0.1"
  {
    assert Decimal(1) == "1" && Decimal(8) == "8";
    assert Decimal(10) == Decimal(1) + "0" == "10" && Decimal(88) == Decimal(8) + "8" == "88";
  }

  // ---------------------------------------------------------------- requests

  /** Where a registration request stands; `inv` is the row it read. */
  datatype Phase = Passed(inv: Invitation) | Inserted(inv: Invitation) | Done

  /** A device row that was inserted, and the invitation and request it came from. */
  datatype Enrolled = Enrolled(request: nat, invitation: string, device: string)

  datatype State = State(tables: Tables, phases: map<nat, Phase>, log: seq<Enrolled>)

  const INIT := State(EMPTY, map[], [])

  datatype Step =
    | Invite(inv: Invitation)                                       // handleInvitationCreate
    | Lookup(request: nat, tokenHash: string, now: nat)             // GetInvitationByTokenHash and its checks
    | Insert(request: nat, id: string, b0: Byte, b1: Byte, draft: Device, healthy: bool)  // CreateDevice
    | Mark(request: nat, now: nat, healthy: bool)                   // MarkInvitationUsed
    | Remove(id: string)                                            // handleDeviceDelete

  predicate Usable(inv: Invitation, now: nat) {
    now <= inv.expiresAt && (inv.reusable || inv.usedAt == None)
  }

  /** The device row a request writes; id and address are freshly drawn, the rest comes from the request. */
  function DeviceRow(inv: Invitation, id: string, b0: Byte, b1: Byte, draft: Device): Device {
    draft.(id := id, userId := inv.userId, groupId := inv.groupId, virtualIP := VirtualIP(b0, b1))
  }

  /** `healthy` says whether the database served the statement; a failed mark is only logged. */
  ghost function Apply(s: State, step: Step): State {
    match step
    case Invite(inv) =>
      var r := CreateInvitation(s.tables, inv.(usedAt := None));
      if r.Success? then s.(tables := r.value) else s
    case Lookup(request, hash, now) =>
      if request in s.phases then s
      else
        var r := InvitationByHash(s.tables, hash);
        s.(phases := s.phases[request := if r.Success? && Usable(r.value, now) then Passed(r.value) else Done])
    case Insert(request, id, b0, b1, draft, healthy) =>
      if request !in s.phases || !s.phases[request].Passed? then s
      else
        var inv := s.phases[request].inv;
        var r := CreateDevice(s.tables, DeviceRow(inv, id, b0, b1, draft));
        if !healthy || r.Failure? then s.(phases := s.phases[request := Done])
        else s.(tables := r.value, phases := s.phases[request := Inserted(inv)],
                log := s.log + [Enrolled(request, inv.id, id)])
    case Mark(request, now, healthy) =>
      if request !in s.phases || !s.phases[request].Inserted? then s
      else
        var inv := s.phases[request].inv;
        s.(phases := s.phases[request := Done],
           tables := if healthy && !inv.reusable then MarkInvitationUsed(s.tables, inv.id, now) else s.tables)
    case Remove(id) =>
      var r := DeleteDevice(s.tables, id);
      if r.Success? then s.(tables := r.value) else s
  }

  ghost function RunFrom(s: State, steps: seq<Step>): State {
    if steps == [] then s else Apply(RunFrom(s, steps[..|steps| - 1]), steps[|steps| - 1])
  }

  ghost function Run(steps: seq<Step>): State {
    RunFrom(INIT, steps)
  }

  lemma {:induction false} RunFromConcat(s: State, a: seq<Step>, b: seq<Step>)
    ensures RunFrom(s, a + b) == RunFrom(RunFrom(s, a), b)
  {
    if b == [] {
      assert a + b == a;
    } else {
      RunFromConcat(s, a, b[..|b| - 1]);
      assert (a + b)[..|a + b| - 1] == a + b[..|b| - 1];
    }
  }

  lemma RunFromNext(s: State, steps: seq<Step>, next: Step)
    ensures RunFrom(s, steps + [next]) == Apply(RunFrom(s, steps), next)
  {
    assert (steps + [next])[..|steps|] == steps;
  }

  lemma ConsistentStep(s: State, step: Step)
    requires Consistent(s.tables)
    ensures Consistent(Apply(s, step).tables)
  {
  }

  lemma LookupPasses(s: State, r: nat, inv: Invitation, now: nat)
    requires Consistent(s.tables) && inv.id in s.tables.invitations && s.tables.invitations[inv.id] == inv
    requires r !in s.phases && Usable(inv, now)
    ensures Apply(s, Lookup(r, inv.tokenHash, now)) == s.(phases := s.phases[r := Passed(inv)])
  {
    LookupsAreExact(s.tables, inv.id);
  }

  lemma InsertSucceeds(s: State, insert: Step)
    requires insert.Insert? && insert.healthy && Consistent(s.tables)
    requires insert.request in s.phases && s.phases[insert.request].Passed? && insert.id !in s.tables.devices
    requires forall d :: d in s.tables.devices ==> s.tables.devices[d].virtualIP != VirtualIP(insert.b0, insert.b1)
    ensures var s', inv := Apply(s, insert), s.phases[insert.request].inv;
            var row := DeviceRow(inv, insert.id, insert.b0, insert.b1, insert.draft);
            && Consistent(s'.tables) && s'.tables == s.tables.(devices := s.tables.devices[insert.id := row])
            && s'.phases == s.phases[insert.request := Inserted(inv)]
            && s'.log == s.log + [Enrolled(insert.request, inv.id, insert.id)]
  {
    ConsistentStep(s, insert);
  }

  // ---------------------------------------------------------------- the device table

  ghost predicate Drawn(d: Device) {
    exists b0: Byte, b1: Byte :: d.virtualIP == VirtualIP(b0, b1)
  }

  ghost predicate AddressesDrawn(t: Tables) {
    forall id :: id in t.devices ==> Drawn(t.devices[id])
  }

  lemma StepKeepsSound(s: State, step: Step)
    requires Consistent(s.tables) && AddressesDrawn(s.tables)
    ensures Consistent(Apply(s, step).tables) && AddressesDrawn(Apply(s, step).tables)
  {
    match step
    case Invite(inv) =>
    case Lookup(_, _, _) =>
    case Insert(request, id, b0, b1, draft, _) =>
      if request in s.phases && s.phases[request].Passed? {
        assert Drawn(DeviceRow(s.phases[request].inv, id, b0, b1, draft));
      }
    case Mark(_, _, _) =>
    case Remove(_) =>
  }

  lemma {:induction false} TablesStaySound(steps: seq<Step>)
    ensures Consistent(Run(steps).tables) && AddressesDrawn(Run(steps).tables)
  {
    if steps != [] {
      TablesStaySound(steps[..|steps| - 1]);
      StepKeepsSound(Run(steps[..|steps| - 1]), steps[|steps| - 1]);
    }
  }

  /** What is known of a drawn address: it parses, into the /16, and no other drawn text parses to it. */
  ghost predicate InRange(ip: string) {
    ParseIp(ip).Some? && Contains(Cidr(OctetsToIp(10, 88, 0, 0), 16), ParseIp(ip).value)
    && VirtualNumber(0, 0) <= ParseIp(ip).value < VirtualNumber(0, 0) + 0x1_0000
  }

  lemma DrawnInRange(d: Device)
    requires Drawn(d)
    ensures InRange(d.virtualIP)
  {
    var b0: Byte, b1: Byte :| d.virtualIP == VirtualIP(b0, b1);
    VirtualRoundTrip(b0, b1);
  }

  lemma SameBytes(a0: Byte, a1: Byte, b0: Byte, b1: Byte)
    requires VirtualNumber(a0, a1) == VirtualNumber(b0, b1)
    ensures a0 == b0 && a1 == b1
  {
  }

  lemma SameNumberSameText(d: Device, e: Device)
    requires Drawn(d) && Drawn(e) && ParseIp(d.virtualIP) == ParseIp(e.virtualIP)
    ensures d.virtualIP == e.virtualIP
  {
    var a0: Byte, a1: Byte :| d.virtualIP == VirtualIP(a0, a1);
    var b0: Byte, b1: Byte :| e.virtualIP == VirtualIP(b0, b1);
    VirtualRoundTrip(a0, a1);
    VirtualRoundTrip(b0, b1);
    SameBytes(a0, a1, b0, b1);
  }

  /** Every device table that registration and deletion can build has pairwise distinct addresses, all of
      them parsing into 10.88.0.0/16, and so at most 65,536 rows. */
  lemma AddressBound(steps: seq<Step>)
    ensures var devices := Run(steps).tables.devices;
            && (forall id :: id in devices ==> InRange(devices[id].virtualIP))
            && (forall i, j :: i in devices && j in devices && i != j ==>
                ParseIp(devices[i].virtualIP) != ParseIp(devices[j].virtualIP))
            && |devices| <= 0x1_0000
  {
    TablesStaySound(steps);
    var devices, low := Run(steps).tables.devices, VirtualNumber(0, 0);
    forall id | id in devices ensures InRange(devices[id].virtualIP) {
      DrawnInRange(devices[id]);
    }
    forall i, j | i in devices && j in devices && i != j
      ensures ParseIp(devices[i].virtualIP) != ParseIp(devices[j].virtualIP) {
      if ParseIp(devices[i].virtualIP) == ParseIp(devices[j].virtualIP) {
        SameNumberSameText(devices[i], devices[j]);
        assert false;
      }
    }
    CountRows(devices, low);
  }

  lemma CountRows(devices: map<string, Device>, low: int)
    requires forall id :: id in devices ==>
               ParseIp(devices[id].virtualIP).Some? && low <= ParseIp(devices[id].virtualIP).value < low + 0x1_0000
    requires forall i, j :: i in devices && j in devices && i != j ==>
             ParseIp(devices[i].virtualIP) != ParseIp(devices[j].virtualIP)
    ensures |devices| <= 0x1_0000
  {
    var image: map<string, int> := map id | id in devices :: ParseIp(devices[id].virtualIP).value;
    InjectiveCount(image, low, low + 0x1_0000);
    assert image.Keys == devices.Keys;
    assert |image| == |image.Keys| && |devices| == |devices.Keys|;
  }

  /** Pigeonhole: an injective map into an interval has no more keys than the interval has numbers. */
  lemma {:induction false} InjectiveCount(m: map<string, int>, low: int, high: int)
    requires low <= high && forall k :: k in m ==> low <= m[k] < high
    requires forall k, l :: k in m && l in m && k != l ==> m[k] != m[l]
    ensures |m| <= high - low
    decreases high - low
  {
    if low < high {
      var top := high - 1;
      if k :| k in m && m[k] == top {
        var rest := m - {k};
        assert m == rest[k := top] && |m| == |rest| + 1;
        InjectiveCount(rest, low, top);
      } else {
        InjectiveCount(m, low, top);
      }
    } else if k :| k in m {
      assert false;
    }
  }
}
