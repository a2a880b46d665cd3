/** Keeping the hub in step with the device table: handlers list the devices and rebuild the hub's interface
    without a lock, so listings and rebuilds of different handlers interleave. */
module HubSync {
  import opened Wrappers
  import opened Models
  import opened Addresses
  import opened Kernel
  import opened SqliteStore
  import opened Enrolment
  import opened Hub
  import opened TwoHop
  import opened EnrolledRouting
  import TunnelMeaning

  // ---------------------------------------------------------------- what happens to the table meanwhile

  predicate Registers(s: State, step: Step) {
    step.Insert? && step.request in s.phases && s.phases[step.request].Passed? && step.healthy
    && CreateDevice(s.tables, DeviceRow(s.phases[step.request].inv, step.id, step.b0, step.b1, step.draft)).Success?
  }

  predicate Deletes(s: State, step: Step) {
    step.Remove? && step.id in s.tables.devices
  }

  /** The devices registered by these steps, and the devices deleted by them. */
  ghost function Added(s: State, steps: seq<Step>): set<string> {
    if steps == [] then {}
    else
      var before, last := steps[..|steps| - 1], steps[|steps| - 1];
      Added(s, before) + if Registers(RunFrom(s, before), last) then {last.id} else {}
  }

  ghost function Deleted(s: State, steps: seq<Step>): set<string> {
    if steps == [] then {}
    else
      var before, last := steps[..|steps| - 1], steps[|steps| - 1];
      Deleted(s, before) + if Deletes(RunFrom(s, before), last) then {last.id} else {}
  }

  /** Device ids are uuids: no registration reuses one. */
  ghost predicate FreshIds(s: State, steps: seq<Step>) {
    forall k :: 0 <= k < |steps| && Registers(RunFrom(s, steps[..k]), steps[k]) ==>
      steps[k].id !in s.tables.devices && steps[k].id !in Added(s, steps[..k])
  }

  lemma DeviceStep(s: State, step: Step)
    ensures Apply(s, step).tables.devices ==
            if Registers(s, step) then
              s.tables.devices[step.id := DeviceRow(s.phases[step.request].inv, step.id, step.b0, step.b1, step.draft)]
            else if Deletes(s, step) then s.tables.devices - {step.id} else s.tables.devices
  {
  }

  /** The table after some steps: what was there and what was registered, less what was deleted. */
  lemma {:induction false} TableSince(s: State, steps: seq<Step>)
    requires FreshIds(s, steps)
    ensures var t := RunFrom(s, steps).tables.devices;
            && t.Keys == s.tables.devices.Keys + Added(s, steps) - Deleted(s, steps)
            && (forall id :: id in t && id in s.tables.devices ==> t[id] == s.tables.devices[id])
            && Added(s, steps) !! s.tables.devices.Keys
            && Deleted(s, steps) <= s.tables.devices.Keys + Added(s, steps)
  {
    if steps != [] {
      var n := |steps| - 1;
      var before := steps[..n];
      assert forall k :: 0 <= k < n ==> before[..k] == steps[..k] && before[k] == steps[k];
      TableSince(s, before);
      DeviceStep(RunFrom(s, before), steps[n]);
    }
  }

  lemma KeysBack<T>(was: set<T>, added: set<T>, deleted: set<T>, now: set<T>)
    requires added !! was && deleted <= was + added && now == was + added - deleted
    ensures now == was <==> added <= deleted && deleted !! was
  {
    assert now == was ==> forall x :: x in deleted ==> x !in was;
    assert now == was ==> forall x :: x in added ==> x !in now;
  }

  /** Exactly when the device table is what it was: every device registered since was deleted again, and none
      that was there has been deleted. */
  lemma UnchangedExactly(s: State, steps: seq<Step>)
    requires FreshIds(s, steps)
    ensures RunFrom(s, steps).tables.devices == s.tables.devices <==>
            Added(s, steps) <= Deleted(s, steps) && Deleted(s, steps) !! s.tables.devices.Keys
  {
    TableSince(s, steps);
    var t, u := RunFrom(s, steps).tables.devices, s.tables.devices;
    KeysBack(u.Keys, Added(s, steps), Deleted(s, steps), t.Keys);
    assert t.Keys == u.Keys ==> t == u;
  }

  // ---------------------------------------------------------------- listings and rebuilds

  /** A listing some handler took: of which state, and what happened to the store since. */
  datatype Taken = Taken(listing: seq<Device>, from: State, since: seq<Step>)

  datatype World = World(store: State, pending: map<nat, Taken>, built: Option<Taken>)

  /** A statement on the store; a handler's `ListDevices`; the rebuild of the hub from that listing. */
  datatype Event = OnStore(step: Step) | List(sync: nat, listing: seq<Device>) | Rebuild(sync: nat)

  function Older(t: Taken, step: Step): Taken {
    t.(since := t.since + [step])
  }

  ghost function Next(w: World, e: Event): World {
    match e
    case OnStore(step) =>
      World(Apply(w.store, step), map r | r in w.pending :: Older(w.pending[r], step),
            if w.built.None? then None else Some(Older(w.built.value, step)))
    case List(sync, listing) =>
      if Listing(w.store.tables, listing) then w.(pending := w.pending[sync := Taken(listing, w.store, [])]) else w
    case Rebuild(sync) =>
      if sync in w.pending then w.(pending := w.pending - {sync}, built := Some(w.pending[sync])) else w
  }

  ghost function After(events: seq<Event>): World {
    if events == [] then World(INIT, map[], None) else Next(After(events[..|events| - 1]), events[|events| - 1])
  }

  ghost predicate Sound(w: World, t: Taken) {
    w.store == RunFrom(t.from, t.since) && Listing(t.from.tables, t.listing) && Consistent(t.from.tables)
    && Consistent(w.store.tables)
  }

  ghost predicate AllSound(w: World) {
    && Consistent(w.store.tables)
    && (forall r :: r in w.pending ==> Sound(w, w.pending[r]))
    && (w.built.Some? ==> Sound(w, w.built.value))
  }

  lemma OlderIsSound(w: World, t: Taken, step: Step)
    requires Sound(w, t)
    ensures Sound(w.(store := Apply(w.store, step)), Older(t, step))
  {
    RunFromNext(t.from, t.since, step);
    ConsistentStep(w.store, step);
  }

  lemma SoundStep(w: World, e: Event)
    requires AllSound(w)
    ensures AllSound(Next(w, e))
  {
    if e.OnStore? {
      ConsistentStep(w.store, e.step);
      forall r | r in w.pending ensures Sound(w.(store := Apply(w.store, e.step)), Older(w.pending[r], e.step)) {
        OlderIsSound(w, w.pending[r], e.step);
      }
      if w.built.Some? {
        OlderIsSound(w, w.built.value, e.step);
      }
    }
  }

  lemma {:induction false} AlwaysSound(events: seq<Event>)
    ensures AllSound(After(events))
  {
    if events != [] {
      AlwaysSound(events[..|events| - 1]);
      SoundStep(After(events[..|events| - 1]), events[|events| - 1]);
    }
  }

  /** The hub was last built from a listing of the table as it is. */
  ghost predicate Current(w: World) {
    w.built.Some? && Listing(w.store.tables, w.built.value.listing)
  }

  lemma ListingTellsTable(t: Tables, u: Tables, devices: seq<Device>)
    requires Consistent(t) && Consistent(u) && Listing(t, devices)
    ensures Listing(u, devices) <==> t.devices == u.devices
  {
    if Listing(u, devices) {
      forall id | id in t.devices ensures id in u.devices && u.devices[id] == t.devices[id] {
        assert t.devices[id] in devices;
      }
      forall id | id in u.devices ensures id in t.devices {
        assert u.devices[id] in devices;
      }
    }
  }

  /** Exactly when the hub is current, over every interleaving of handlers: since the listing that the last rebuild
      used, no device that it lists was deleted, and every device registered was deleted again. In particular it
      is current if nothing changed since, and behind after any registration that lasts. */
  lemma CurrentExactly(events: seq<Event>)
    requires After(events).built.Some? && FreshIds(After(events).built.value.from, After(events).built.value.since)
    ensures var t := After(events).built.value; var gone := Deleted(t.from, t.since);
            Current(After(events)) <==> Added(t.from, t.since) <= gone && gone !! t.from.tables.devices.Keys
  {
    AlwaysSound(events);
    var w := After(events);
    var t := w.built.value;
    ListingTellsTable(t.from.tables, w.store.tables, t.listing);
    UnchangedExactly(t.from, t.since);
  }

  // ---------------------------------------------------------------- a registration that gets lost

  /** A hub does not forward an address that no row of its listing has. */
  lemma UnlistedIsUnreached(accepts: Verdict, m: Machine, h: Hub, keyFile: string, devices: seq<Device>, ip: Ip,
                            key: string)
    requires HubRun(accepts, m, h, keyFile, devices).1
    requires forall d :: d in devices ==> ParseIp(d.virtualIP) != Some(ip)
    ensures !Forwards(HubRun(accepts, m, h, keyFile, devices).0.net, ip, key)
  {
    HubSendsToDevice(accepts, m, h, keyFile, devices, ip, key);
    var issued := m.issued + Commands(HubHead(h, keyFile));
    var claims, claim := ClaimsOf(accepts, issued, h, devices), Claim(key, Cidr(ip, 32));
    forall j ensures !LastsFrom(claims, j, claim) {
      if 0 <= j < |claims| {
        ClaimIsOwn(accepts, issued, h, devices, j);
        assert devices[j] in devices;
      }
    }
  }

  function Stores(steps: seq<Step>): seq<Event> {
    seq(|steps|, i requires 0 <= i < |steps| => OnStore(steps[i]))
  }

  lemma AfterNext(events: seq<Event>, e: Event)
    ensures After(events + [e]) == Next(After(events), e)
  {
    assert (events + [e])[..|events|] == events;
  }

  /** Statements on the store leave the listings that handlers hold as they are. */
  lemma {:induction false} StoresRun(events: seq<Event>, steps: seq<Step>)
    ensures var w, w' := After(events), After(events + Stores(steps));
            && w'.store == RunFrom(w.store, steps)
            && w'.pending.Keys == w.pending.Keys
            && forall r :: r in w.pending ==> w'.pending[r].listing == w.pending[r].listing
  {
    if steps == [] {
      assert events + Stores(steps) == events;
    } else {
      var n := |steps| - 1;
      StoresRun(events, steps[..n]);
      AfterNext(events + Stores(steps[..n]), OnStore(steps[n]));
      assert events + Stores(steps) == events + Stores(steps[..n]) + [OnStore(steps[n])];
    }
  }

  /** Two handlers, each of which registered a device and listed the table, rebuild the hub in the other order. */
  lemma ListedInTurn(events: seq<Event>, older: seq<Device>, steps: seq<Step>, newer: seq<Device>)
    returns (all: seq<Event>)
    requires After(events).pending == map[]
    requires Listing(After(events).store.tables, older)
    requires Listing(RunFrom(After(events).store, steps).tables, newer)
    ensures var w := After(all);
            && w.store == RunFrom(After(events).store, steps) && w.pending == map[]
            && w.built.Some? && w.built.value.listing == older
  {
    var first := events + [List(0, older)];
    AfterNext(events, List(0, older));
    StoresRun(first, steps);
    var second := first + Stores(steps);
    AfterNext(second, List(1, newer));
    AfterNext(second + [List(1, newer)], Rebuild(1));
    AfterNext(second + [List(1, newer)] + [Rebuild(1)], Rebuild(0));
    all := second + [List(1, newer)] + [Rebuild(1)] + [Rebuild(0)];
  }

  lemma OldListingStands(key: string, other: string) returns (events: seq<Event>, steps: seq<Step>, newer: seq<Device>)
    ensures Listing(Run(steps).tables, newer) && |newer| == 2 && DistinctAddresses(newer)
    ensures var w := After(events);
            && w.pending == map[] && w.built.Some? && w.store == Run(steps) && w.built.value.listing == newer[1..]
    ensures newer[0].publicKey == key && newer[0].virtualIP == VirtualIP(0, 3) && newer[1].publicKey == other
  {
    steps, newer := TwoEnrolled(key, 3, other, 2);
    var k :| 0 <= k <= |steps| && Listing(Run(steps[..k]).tables, newer[1..]);
    RunFromConcat(INIT, steps[..k], steps[k..]);
    assert steps == steps[..k] + steps[k..];
    StoresRun([], steps[..k]);
    assert [] + Stores(steps[..k]) == Stores(steps[..k]);
    events := ListedInTurn(Stores(steps[..k]), newer[1..], steps[k..], newer);
    ListingIsDistinct(steps, newer);
  }

  lemma OnlyTheNewerServes(accepts: Verdict, hub: Machine, h: Hub, keyFile: string, newer: seq<Device>)
    requires TunnelMeaning.Willing(accepts) && h == DefaultHub(h.publicKey) && PassesOn(accepts, hub, h, keyFile)
    requires |newer| == 2 && DistinctAddresses(newer) && newer[0].publicKey != ""
    requires newer[0].virtualIP == VirtualIP(0, 3)
    requires newer[0].publicKey != newer[1].publicKey
    ensures ParseIp(newer[0].virtualIP).Some?
    ensures var ip := ParseIp(newer[0].virtualIP).value;
            && (forall k :: !Forwards(HubRun(accepts, hub, h, keyFile, newer[1..]).0.net, ip, k))
            && Relays(HubRun(accepts, hub, h, keyFile, newer).0, ip, newer[0].publicKey)
  {
    DefaultHubParses(h);
    VirtualRoundTrip(0, 3);
    DefaultHubClaims(h, accepts, hub, keyFile, newer, 0, 3);
    HubCompletes(accepts, hub, h, keyFile, newer[1..]);
    SixteenCovers(VirtualNumber(0, 1), VirtualNumber(0, 3));
    HubReaches(accepts, hub, h, keyFile, newer, 0, newer[0].publicKey);
    SyncForwards(accepts, hub, h, keyFile, newer);
    forall k ensures !Forwards(HubRun(accepts, hub, h, keyFile, newer[1..]).0.net, VirtualNumber(0, 3), k) {
      UnlistedIsUnreached(accepts, hub, h, keyFile, newer[1..], VirtualNumber(0, 3), k);
    }
  }

  /** Two registrations with different keys, of which the second lists and rebuilds between the listing and the
      rebuild of the first: all handlers are done, the second device is in the table, and the hub forwards its
      address to nobody, although it would have if it had been built from the newer listing. */
  lemma RegistrationIsLost(accepts: Verdict, hub: Machine, h: Hub, keyFile: string, key: string, other: string)
    returns (events: seq<Event>, newer: seq<Device>)
    requires TunnelMeaning.Willing(accepts) && h == DefaultHub(h.publicKey) && key != "" && key != other
    requires PassesOn(accepts, hub, h, keyFile)
    ensures After(events).pending == map[] && After(events).built.Some? && !Current(After(events))
    ensures Listing(After(events).store.tables, newer) && |newer| == 2 && ParseIp(newer[0].virtualIP).Some?
    ensures var ip, built := ParseIp(newer[0].virtualIP).value, After(events).built.value.listing;
            && (forall k :: !Forwards(HubRun(accepts, hub, h, keyFile, built).0.net, ip, k))
            && Relays(HubRun(accepts, hub, h, keyFile, newer).0, ip, key)
  {
    var steps;
    events, steps, newer := OldListingStands(key, other);
    OnlyTheNewerServes(accepts, hub, h, keyFile, newer);
    assert newer[0] in newer && newer[0] !in newer[1..];
  }
}
