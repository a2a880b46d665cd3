# Linkbit, verified

A Dafny model of the state machines at the core of Linkbit, with proofs about all their inputs, runs and
interleavings. `dafny verify dfyconfig.toml` checks the whole project.

Four groups of modules, and the results that join them:

- **The TCP relay.** `Broker` is the controller's broker as a state with one atomic step per critical section;
  `TCPRelayBroker` is the mutable object, each of whose methods is proved to be such a step; `BrokerRuns` holds
  the theorems about all runs. The clock of `Create`, `Pending` and `validate` is read before the lock, so it is
  not monotone in lock order and no theorem assumes that it is. `Upgrade` is the agent's head stripping through a
  buffered reader, `RelayStream` the byte stream over source agent, controller and target agent, `StreamProgress` its
  liveness, `RelayTarget` the agent's one-handler-per-session rule. `PermittedStream` joins broker, policies and
  streams.
- **Configuration as compilation.** `Policy` (policies and devices to peers), `AgentTunnel` and `Hub` (peers to
  commands), `Kernel` (commands to an abstract interface with a cryptokey table), `TunnelMeaning` (the interface a
  configuration denotes), `TwoHop` (both tables together) and `PolicyRouting` (what policies do to the agents'
  tables), over `Addresses` (IPv4 text and prefixes).
- **Enrolment and credentials.** `SqliteStore` (three tables with their key constraints), `Enrolment`, `OneTime` and
  `RemainingEnrolments` (registration requests, one statement at a time), `RegistrationServer` (the handler over the
  store), `ApiKeys`, `AgentState` (the state file with its crash points) and `AgentService` (restarts); `LockedOut`
  puts agent and controller together. `EnrolledRouting` joins enrolment to routing: for every device table that
  registration can build, where both hops send every device's packets. `HubSync` interleaves registrations with the
  listings and rebuilds that keep the hub in step.
- **The DERP map.** `DerpMap`: grouping by code, then by a 32-bit hash reduced to 100 ids.

Methods that update objects in place are proved equal to a function on values, and the theorems are about that
function. A run is a sequence of atomic steps, so quantifying over sequences covers every interleaving.

## What the proofs found

Where the code does not do what its names and messages promise, the code is kept as it is; a lemma gives an input
that shows it, and another says exactly when the promise holds.

- An invitation that is not reusable can enrol several devices: through interleaved requests
  (`InterleavedRequestsEnrolTwo`) or after a failed mark, which is only logged (`FailedMarkEnrolsTwo`). The bound is
  `OneTimeBound`; `RemainingExactly` says, at any moment, exactly how many further devices can come of it.
- An agent that registered with a one-time key, which was marked, and then could not save what it got is locked out
  (`SaveFailureLocksOut`). An agent without stored credentials never gets a device for its one-time key again, however
  often it restarts, exactly if the key is marked or expired (`LockedOutExactly`).
- `attach` on an expired session closes the new connection but drops the one already waiting without closing it
  (`LateAttachReleases`); this happens exactly if no clean-up found the session first (`ReleasedExactly`).
- A `Create` between a poller's first look and its capture of the wake channel does not wake it; the session is
  still returned when the timer fires (`CreateInGapDoesNotWake`, `CreateReleasesPoller`, `NoPendingSessionMissed`).
- A session can be removed before its deadline by the poller's clock, by a request that read a later clock and took
  the lock earlier (`ClocksOutOfLockOrder`).
- The hub's interface always gets a /16 around `HubWireGuardIP`, whatever `HubWireGuardNetwork` says, while devices
  draw from 10.88.0.0/16. A hub outside that range is sent every covered device's address and reaches no device
  (`ForeignHubServesNobody`, `OutsideHubServesNobody`); inside it the /16 covers every device (`SixteenCovers`).
- A device may be given the hub's own address, and is then not reached (`HubAddressIsNotReached`). A device may
  register again with its public key; the devices are listed newest first and the last command for a key wins, so the
  hub reaches the old row and not the new one (`NewRegistrationIsNotReached`). Exactly which row is reached:
  `FirstRegistrationIsReached` for a hub in the devices' range, `EnrolledDevicesAreRouted` for every hub.
- With the hub on, policies do not affect routing: an agent's interface is the same under all of them
  (`HubHidesPolicies`), and of two devices that no policy joins the one reaches the other
  (`UnpermittedDeviceIsReached`). With the hub off a device is sent to exactly as the policies say
  (`AgentSendsToAllowed`).
- A refused sysctl does not fail a sync: on a host that did not forward packets before, the hub then reports success
  and reaches nobody (`RefusedSysctlServesNobody`). A synced host forwards exactly if it did before or the sysctl went
  through (`SyncForwards`).
- Registrations sync the hub without a lock. Of two concurrent ones the older listing can be the last to be built, and
  then a registered device is not reached although every handler is done (`RegistrationIsLost`). The hub is current
  exactly if since the listing it was last built from no listed device was deleted and no registered one stayed
  (`CurrentExactly`).
- Relay regions whose codes hash alike replace each other, in an order that is not determined
  (`CollidingCodes`, `AnyCodeMaySurvive`, `EveryRelayServedExactly`).
- A private key given by configuration is combined with the public key already stored (`PrivateOverrideSplitsPair`;
  exactly when the two belong together: `PrivateOverridePairs`).
- A "101" anywhere in the status line counts as an upgrade, also in the reason of a refusal
  (`RefusalTakenForUpgrade`; exactly which responses do: `UpgradesExactly`).

A boundary of one theorem: `RevocationIsPermanent` says when a revoked key opens a route again, which is only as the
bootstrap key. Stored keys are drawn at random, so nothing in the code makes the two meet.

## Model

| member | source | states |
|---|---|---|
| `TCPRelayBroker.TCPRelayBroker.ExpireLocked` | internal/controller/tcp_relay.go:179-188 | one turn of the clean-up loop removes the session exactly if it is past its deadline and closes exactly its connections |
| `TCPRelayBroker.TCPRelayBroker.CleanupLocked` | internal/controller/tcp_relay.go:178-190 | deleting while looping, in any map order, leaves exactly the sessions with now <= ExpiresAt and closes exactly the connections of the others |
| `TCPRelayBroker.TCPRelayBroker.SignalLocked` | internal/controller/tcp_relay.go:192-195 | closes the current wake channel and installs a new one |
| `TCPRelayBroker.TCPRelayBroker.Create` | internal/controller/tcp_relay.go:41-59 | inserts the session with its two-minute deadline and its devices' ids, name and address, then cleans up and signals, as one step |
| `TCPRelayBroker.TCPRelayBroker.ListWaiting` | internal/controller/tcp_relay.go:66-72 | ranging over the map in any order lists each waiting session of the device once and no other |
| `TCPRelayBroker.TCPRelayBroker.Pending` | internal/controller/tcp_relay.go:61-73 | after a clean-up, lists each waiting session of the device once and no other |
| `TCPRelayBroker.TCPRelayBroker.Sleep` | internal/controller/tcp_relay.go:83-89 | the select goes on at the first moment the channel is closed or the timer or context has fired, and not before |
| `TCPRelayBroker.TCPRelayBroker.WaitAgain` | internal/controller/tcp_relay.go:80-90 | the second half of a long poll: which channel it captures, when it goes on, what it returns |
| `TCPRelayBroker.TCPRelayBroker.PendingWait` | internal/controller/tcp_relay.go:75-91 | three separate sections, look, capture the wake channel, look again, with any steps of others between; it waits exactly until the captured channel is closed or the timer or context fires, and returns what is pending at the last look |
| `TCPRelayBroker.TCPRelayBroker.Validate` | internal/controller/tcp_relay.go:109-131 | cleans up, then accepts or names the first check that fails; attaches nothing |
| `TCPRelayBroker.TCPRelayBroker.Attach` | internal/controller/tcp_relay.go:133-176 | every branch's effect on table, slots, closed connections and started pairs, with its error |
| `TCPRelayBroker.TCPRelayBroker.Perform` | internal/controller/tcp_relay.go:41-190 | each method call is one step of the abstract broker |
| `TCPRelayBroker.TCPRelayBroker.Interleave` | internal/controller/tcp_relay.go:41-190 | any sequence of calls on the object is the abstract run of those steps |
| `TCPRelayBroker.TCPRelayBroker.HandleStream` | internal/controller/tcp_relay.go:259-297 | a stream handler's order of steps with others between: a refused one never hijacks, a hijacked connection is given to attach exactly once |
| `Broker.AttachRevalidates` | internal/controller/tcp_relay.go:109-164 | attach accepts exactly what validate would accept at that moment, in time |
| `Broker.RefusalsExactly` | internal/controller/tcp_relay.go:109-131 | which error each refused request gets before its connection is taken over |
| `Broker.AttachRefusesExactly` | internal/controller/tcp_relay.go:133-164 | which error each refused attach gives, and that its connection is closed |
| `BrokerRuns.SessionFate` | internal/controller/tcp_relay.go:41-59 | in every run a session is in the table exactly until some step finds it stale or both sides joined, and its slots say exactly which sides joined |
| `BrokerRuns.SlotKeepsFirst` | internal/controller/tcp_relay.go:150-164 | slots are write-once: each keeps the first connection that joined in time from the right device |
| `BrokerRuns.NoRevival` | internal/controller/tcp_relay.go:144-169 | an id removed from the table never returns |
| `BrokerRuns.SessionsAreAsCreated` | internal/controller/tcp_relay.go:41-52 | every session of the table has the ids, name, address and port it was created with, and a deadline 120 seconds later |
| `BrokerRuns.PairFate` | internal/controller/tcp_relay.go:133-176 | exactly which proxy pairs a run starts: source's first connection with target's first, both in time, before anything found the session stale |
| `BrokerRuns.PairsJoinTheirDevices` | internal/controller/tcp_relay.go:133-176 | every pair's client end was attached by the device that opened the session and its agent end by the device it was opened to, both within 120 seconds |
| `BrokerRuns.OnePairPerSession` | internal/controller/tcp_relay.go:165-174 | each session id starts at most one pair in a whole run, and then is out of the table |
| `BrokerRuns.PendingIsExact` | internal/controller/tcp_relay.go:61-73 | a device is told exactly its sessions that no agent joined and no step found stale |
| `BrokerRuns.NoPendingSessionMissed` | internal/controller/tcp_relay.go:75-91 | a long poll returns every live unjoined session created before its last look, also one created between the first look and the wake capture |
| `BrokerRuns.ClocksOutOfLockOrder` | internal/controller/tcp_relay.go:61-66 | a session can be gone before its deadline by the poller's clock, because clocks are read before the lock |
| `BrokerRuns.WakesAreCounted` | internal/controller/tcp_relay.go:53-57 | after k creates, k channels have been closed, once each and in order, and the next is current |
| `BrokerRuns.WakeDiscipline` | internal/controller/tcp_relay.go:192-195 | no channel is closed twice, the current one is open, and a captured one is closed exactly when a Create completed since |
| `BrokerRuns.CreateReleasesPoller` | internal/controller/tcp_relay.go:80-89 | a sleeping poller is released through its channel exactly by the creates after its capture |
| `BrokerRuns.CreateInGapDoesNotWake` | internal/controller/tcp_relay.go:76-89 | a session created between a poller's first look and its capture of the wake channel is pending and does not wake the poller |
| `BrokerRuns.LiveSessionBound` | internal/controller/tcp_relay.go:178-190 | after any clean-up at now, no session is past its deadline and there are at most as many as creates stamped within 120 s before now, even with clocks out of lock order |
| `BrokerRuns.Ledger` | internal/controller/tcp_relay.go:133-190 | a ledger of all attached connections can be kept in step with every run |
| `BrokerRuns.StepMoves` | internal/controller/tcp_relay.go:133-190 | one critical section moves connections between ledger classes and enters only the connection it was given |
| `BrokerRuns.ConnectionConservation` | internal/controller/tcp_relay.go:133-190 | each connection given to attach is in exactly one place: one slot, one end of one pair, closed, or released; no other connection is anywhere |
| `BrokerRuns.ReleasedExactly` | internal/controller/tcp_relay.go:144-149 | a connection is dropped unclosed exactly if it was the first to join its side of a session that the other side never joined, and the first step to find that session past its deadline was an attach and not a clean-up |
| `BrokerRuns.LateAttachReleases` | internal/controller/tcp_relay.go:144-149 | a waiting client whose agent comes a second too late is dropped and not closed |
| `Upgrade.UpgradesExactly` | internal/agent/tcp_relay.go:304-324 | the streams that upgrade are exactly those with a status line that contains 101 somewhere, header lines and an empty line, and the payload is all that follows (section 2.1 of RFC 9112) |
| `Upgrade.MentionsExactly` | internal/agent/tcp_relay.go:310 | the scan finds the three digits exactly in lines that are some text, the digits, and some text |
| `Upgrade.RefusesExactly` | internal/agent/tcp_relay.go:310-313 | exactly the streams whose first line does not contain the digits are refused, with that line |
| `Upgrade.TruncatesExactly` | internal/agent/tcp_relay.go:304-324 | exactly the streams that end inside a head are truncated |
| `Upgrade.NotFoundIsRefused` | internal/agent/tcp_relay.go:310-313 | a 404, which answers a refused validation, is refused, whatever follows it |
| `Upgrade.RefusalTakenForUpgrade` | internal/agent/tcp_relay.go:308-313 | a 403 whose reason phrase holds the digits 101 is taken for an upgrade, and what follows its head for payload |
| `Upgrade.MoreBytes` | internal/agent/tcp_relay.go:304-324 | bytes that arrive after the head ended only extend the payload |
| `Upgrade.BufReader.ReadLine` | internal/agent/tcp_relay.go:304-305 | under any chunking, returns the bytes through the first newline and leaves the rest to be read |
| `Upgrade.BufferedConn.Read` | internal/agent/tcp_relay.go:332-337 | what it returns followed by what is left is what was left: buffer first, then the raw connection |
| `Upgrade.BufferedConn.ReadAll` | internal/agent/tcp_relay.go:327-337 | the same for any sequence of read sizes |
| `Upgrade.DialRelayUpgrade` | internal/agent/tcp_relay.go:304-324 | succeeds exactly on an acceptable head, leaving exactly its payload to be read; otherwise closes the connection and reports why |
| `Upgrade.ReadThroughUpgrade` | internal/agent/tcp_relay.go:304-337 | exact head stripping: for every head, payload, chunking and read sizes, what was read followed by what is left is the payload |
| `RelayStream.RunKeepsInv` | internal/controller/tcp_relay.go:197-211 | the invariant of the three processes, kept by every step of every interleaving |
| `RelayStream.StreamConservation` | internal/agent/tcp_relay.go:183-195 | at every moment, in both directions, what was written at one end is what was delivered at the other followed by what is in flight, over all three hops |
| `RelayStream.StreamFidelity` | internal/agent/tcp_relay.go:183-195 | delivered bytes are always a prefix of the written ones, and equal to them exactly when nothing is in flight |
| `StreamProgress.EverythingCanBeDelivered` | internal/agent/tcp_relay.go:183-195 | from every reachable state with the pair started and nothing closed, some schedule in which nothing further is written delivers all that was written, in both directions |
| `StreamProgress.UpgradeStage` | internal/agent/tcp_relay.go:304-324 | an agent whose connection is attached can finish the upgrade, because the whole response head is there to be read |
| `StreamProgress.RelayStage` | internal/controller/tcp_relay.go:197-211 | the controller can move everything on one leg to the other |
| `StreamProgress.RelayCloseStops` | internal/controller/tcp_relay.go:197-211 | in every run, once one of the controller's copies ends, nothing more is put on either leg |
| `StreamProgress.AgentCloseStops` | internal/agent/tcp_relay.go:183-195 | in every run, once one of an agent's copies ends, it puts nothing more on either of its connections |
| `RelayStream.NothingDropped` | internal/controller/tcp_relay.go:329-349 | the read buffer that the hijack drops is empty in every run |
| `RelayStream.ServerSteps` | internal/controller/tcp_relay.go:329-349 | why: while the server parses, the agent has written its request and nothing else |
| `RelayStream.ControllerHead` | internal/controller/tcp_relay.go:341 | the bytes the controller writes are a head that the agent accepts |
| `RelayStream.HeadIsComplete` | internal/agent/tcp_relay.go:304-324 | the agent takes the head for complete exactly with its last byte and keeps what follows |
| `RelayStream.BufferedHead` | internal/agent/tcp_relay.go:314-324 | at the upgrade the whole head has arrived and payload already read stays in the buffer |
| `PermittedStream.UnjoinedDeliversNothing` | internal/controller/tcp_relay.go:172-174 | until the pair is started nothing is delivered at either end |
| `PermittedStream.PairIsPermitted` | internal/controller/tcp_relay.go:213-242 | every pair joins the two devices of a session that a policy permitted |
| `PermittedStream.DeliveredIsPermitted` | internal/controller/tcp_relay.go:165-174 | over every interleaving of broker, agents and applications, delivered bytes are a prefix of the written ones, and none is delivered unless a policy permitted the session's source to reach its target when it was opened and both joined in time |
| `RelayTarget.TCPRelayTarget.MarkActive` | internal/agent/tcp_relay.go:117-125 | succeeds exactly for a session not active, and marks it |
| `RelayTarget.TCPRelayTarget.ClearActive` | internal/agent/tcp_relay.go:127-131 | unmarks the session and no other |
| `RelayTarget.TCPRelayTarget.Check` | internal/agent/tcp_relay.go:79-96 | one poll starts exactly one handler for each listed session found inactive, with handlers ending in between |
| `RelayTarget.OneHandlerPerSession` | internal/agent/tcp_relay.go:79-131 | over all interleavings of polls and handlers, at most one handler runs for a session, and it is active exactly while one does |
| `Policy.AllowedPeers` | internal/controller/server.go:809-836 | the map-then-filter equals filtering the devices by the meaning of the policies |
| `Policy.AllowedExactly` | internal/controller/server.go:809-840 | the result lists, in device order and once each, exactly the other devices to which an enabled policy leads, each with its device's id, name, address, key and endpoint and no prefixes |
| `Policy.PolicyOrderIrrelevant` | internal/controller/server.go:811-818 | policy order and repetition do not matter |
| `Policy.PoliciesAreMonotone` | internal/controller/server.go:811-818 | more enabled policies never take a peer away, disabled ones never add one |
| `Policy.ResolveRelayTarget` | internal/controller/tcp_relay.go:299-327 | finds the first device the value names, under any case folding, and whether it is among the allowed peers; which of the four errors it gives, exactly |
| `Policy.ResolvedByPolicy` | internal/controller/tcp_relay.go:321-326 | with unique device ids, allowed means an enabled policy from source to target |
| `Policy.PolicyBehindEverySession` | internal/controller/tcp_relay.go:213-242 | every session in the broker and every pair ever started goes back to a request whose own snapshot held an enabled policy from its source to its target |
| `Addresses.DecimalValue` | internal/controller/server.go:862 | decimal printing denotes its number, without leading zeros |
| `Addresses.AddressRoundTrip` | internal/controller/server.go:860-863 | a printed dotted quad parses back to its octets |
| `Addresses.ParsesExactly` | internal/controller/wireguard_hub.go:112-122 | text is an address exactly if it is four numbers below 256 as they are printed, with dots between |
| `Addresses.MaskedContains` | internal/controller/wireguard_hub.go:112-122 | clearing a prefix's host bits keeps its members (section 3.1 of RFC 4632) |
| `Addresses.ContainsExactly` | internal/controller/wireguard_hub.go:112-122 | a prefix covers exactly the addresses of its block (section 3.1 of RFC 4632) |
| `Addresses.PrefixesExactly` | internal/controller/wireguard_hub.go:112-122 | text is a prefix exactly if it is an address, a slash and a number up to 32 |
| `Addresses.TrimsExactly` | internal/controller/wireguard_hub.go:113 | trimming takes all white space off both ends, and nothing else |
| `Addresses.HostCidr` | internal/agent/wireguard.go:96 | an address with /32 appended parses to itself |
| `Addresses.SixteenCidr` | internal/controller/wireguard_hub.go:85 | an address with /16 appended parses to itself with sixteen bits |
| `Addresses.NoCidr` | internal/controller/wireguard_hub.go:103 | text that is no address makes no prefix |
| `Addresses.AddressIsTrimmed` | internal/controller/wireguard_hub.go:113 | trimming does not change an address that parses |
| `Kernel.RunLinesConcat` | internal/agent/wireguard.go:87-138 | running a list is running its parts, stopping at the first that aborts |
| `Kernel.StopsAtFirstFailure` | internal/agent/wireguard.go:87-138 | what was issued is exactly the list through the first checked command that fails, else the whole list; unchecked commands never abort |
| `Kernel.AllIssued` | internal/agent/wireguard.go:87-138 | a list that completes was issued whole |
| `Kernel.CommandRunner.Run` | internal/agent/wireguard.go:14-25 | one command's effect on interface and record, or its failure without effect |
| `Kernel.ForwardsToOne` | internal/agent/wireguard.go:112 | an address is sent to at most one peer |
| `AgentTunnel.HubOnlyPeers` | internal/agent/wireguard.go:146-161 | the nested loop with continue and break selects by the hub test, in order |
| `AgentTunnel.HasHubPeer` | internal/agent/wireguard.go:142-144 | true exactly if some peer is a hub |
| `AgentTunnel.HubOnlyExactly` | internal/agent/wireguard.go:146-161 | exactly the given peers that have the hub's id or a prefix other than their own address, in their order |
| `AgentTunnel.CreateInterface` | internal/agent/wireguard.go:87-98 | issues the head of the list, ignoring the failure of the delete only |
| `AgentTunnel.ConfigurePeer` | internal/agent/wireguard.go:105-125 | one peer's commands, and the routes it asks for |
| `AgentTunnel.ConfigurePeers` | internal/agent/wireguard.go:103-126 | all peers' commands in order up to a failure; on success the collected routes |
| `AgentTunnel.BringUp` | internal/agent/wireguard.go:127-132 | mtu, then up |
| `AgentTunnel.AddRoutes` | internal/agent/wireguard.go:133-137 | the routes in order up to a failure |
| `AgentTunnel.WarmWireGuardHub` | internal/agent/wireguard.go:163-172 | pings the first addressed hub only, and never fails |
| `AgentTunnel.WarmsFirstHub` | internal/agent/wireguard.go:163-172 | what is pinged is the address of the first peer with the hub's id that has one, once; without such a peer nothing is |
| `AgentTunnel.ApplyCommands` | internal/agent/wireguard.go:80-140 | for every failure position, what is issued and reached is its script run up to the first checked failure |
| `TunnelMeaning.DenotesOne` | internal/agent/wireguard.go:99-137 | a configuration denotes at most one interface |
| `TunnelMeaning.FinalIsDenoted` | internal/agent/wireguard.go:99-137 | replaying the peers gives the denoted tables: repeated keys and contested prefixes go to the last claim |
| `TunnelMeaning.ScriptRuns` | internal/agent/wireguard.go:80-140 | a completed list ends in that interface from any prior state; in a willing world it completes for every configurable list |
| `TunnelMeaning.CompilationIsCorrect` | internal/agent/wireguard.go:80-140 | command compilation is correct: completion implies the denoted interface, and in a willing world completion is exactly configurability |
| `TunnelMeaning.ApplyingTwice` | internal/agent/wireguard.go:87-90 | completed lists reach the same interface from any two prior states, so applying twice is applying once |
| `Hub.CreateHubInterface` | internal/controller/wireguard_hub.go:78-94 | the hub's head commands, of which the delete and the sysctl may fail |
| `Hub.Sync` | internal/controller/wireguard_hub.go:68-110 | issues exactly its script; a failing device is skipped, not fatal |
| `Hub.SyncIssues` | internal/controller/wireguard_hub.go:68-110 | whenever a sync completes it has issued, in this order, six commands for the link, the sysctl, and one for each device with a key and an address in the network |
| `Hub.SyncForwards` | internal/controller/wireguard_hub.go:94 | after a completed sync the host passes packets on exactly if it did before or the sysctl was let through |
| `Hub.ServedPrefix` | internal/controller/wireguard_hub.go:103 | a served device is given its own address and nothing else |
| `Hub.DevicesRun` | internal/controller/wireguard_hub.go:96-107 | whichever device commands are refused, each is issued, none aborts, and each that goes through takes effect |
| `Hub.HubRuns` | internal/controller/wireguard_hub.go:68-110 | what a hub has become when its sync completes, whichever device commands are refused, and exactly when it completes where nothing is |
| `TwoHop.OnlyTheHub` | internal/controller/server.go:553-556 | with the hub on, an agent configures the hub and nobody else, whatever its policies allow |
| `TwoHop.AgentSendsToHub` | internal/agent/wireguard.go:99-137 | exactly the addresses of the hub network other than its own go to the hub, and to it only |
| `TwoHop.HubIsTold` | internal/controller/wireguard_hub.go:54-66 | with the hub on, the peers are those with the hub off, followed by the hub with its id, name, address, key, endpoint and network |
| `TwoHop.AgentIssues` | internal/agent/wireguard.go:80-140 | everything an agent issues with the hub on, command by command |
| `TwoHop.AgentKnowsHub` | internal/agent/wireguard.go:112-125 | the hub is then the only entry of the agent's peer table, with the hub's endpoint, kept alive every 10 seconds |
| `TwoHop.HubTable` | internal/controller/wireguard_hub.go:96-107 | for any list of devices, and whichever commands are refused, the hub's table gives an address to the last device that claimed it, unless that device's key claimed another one later |
| `TwoHop.HubSendsToDevice` | internal/controller/wireguard_hub.go:85-107 | for any list of devices and whichever commands are refused, the hub forwards an address to a device if and only if the device's claim to it lasts and the address lies in the fixed /16 and is not the hub's own |
| `TwoHop.HubReaches` | internal/controller/wireguard_hub.go:96-107 | with distinct addresses, the hub's table gives an address to exactly that device, if and only if its command went through, no later accepted device has its key, and the address lies in the hub's /16 and is not the hub's |
| `TwoHop.TwoHopRouting` | internal/controller/wireguard_hub.go:54-66 | for any hub, policies and refusals, once both lists have completed: every other agent sends a device's address to the hub only, if the network covers it, and the hub passes it on to exactly that device under those conditions, if its host passes packets on |
| `TwoHop.RefusedSysctlServesNobody` | internal/controller/wireguard_hub.go:94 | where the sysctl alone is refused, on a host that did not pass packets on, the sync completes and the hub passes no address on |
| `TwoHop.AgentCompletes` | internal/agent/wireguard.go:80-140 | where nothing is refused an agent's list completes exactly for a hub network that is a prefix without host bits |
| `TwoHop.HubCompletes` | internal/controller/wireguard_hub.go:78-94 | where nothing but perhaps the sysctl is refused the hub's list completes exactly if its own address is one |
| `PolicyRouting.DirectTable` | internal/agent/wireguard.go:99-137 | with the hub off, an agent's table gives an address to the last device listed that its policies lead to and that claims it, unless that device's key claimed another one later |
| `PolicyRouting.AgentSendsToAllowed` | internal/agent/wireguard.go:99-137 | with the hub off, once its list has completed, an agent sends another device's address to a key if and only if it is that device's, an enabled policy leads to the device, and no later permitted device has the key |
| `PolicyRouting.EnrolledDevicesFollowPolicies` | internal/controller/server.go:553-556 | the same for every device table that registration can build |
| `PolicyRouting.AgentKnowsEndpoints` | internal/agent/wireguard.go:112-125 | with the hub off, an agent's peer table has exactly the keys of the devices it configures, each with the last endpoint listed for it, kept alive every 10 seconds |
| `PolicyRouting.HubHidesPolicies` | internal/controller/server.go:553-556 | with the hub on, an agent's interface is the same under any two sets of policies |
| `PolicyRouting.UnpermittedDeviceIsReached` | internal/controller/server.go:553-556 | behind the default hub, of two devices with no policy at all the one reaches the other |
| `SqliteStore.LookupsAreExact` | internal/store/sqlite/store.go:65-83 | with the unique constraints a look-up finds the row with that hash, and never a revoked key |
| `SqliteStore.Store.AddDevice` | internal/store/sqlite/store.go:343-349 | inserts the row, or fails on a repeated id or address and changes nothing |
| `SqliteStore.Store.RemoveDevice` | internal/store/sqlite/store.go:351-364 | deletes the row, or reports that there is none |
| `SqliteStore.Store.AddInvitation` | internal/store/sqlite/store.go:320-326 | inserts the row, or fails on a repeated id or token hash |
| `SqliteStore.Store.GetInvitationByTokenHash` | internal/store/sqlite/store.go:328-334 | finds the row with the hash by scanning in any order |
| `SqliteStore.Store.MarkUsed` | internal/store/sqlite/store.go:336-341 | sets the mark, whether or not it was set |
| `SqliteStore.Store.AddApiKey` | internal/store/sqlite/store.go:202-208 | inserts the key, or fails on a repeated id or digest |
| `SqliteStore.Store.GetApiKeyByDigest` | internal/store/sqlite/store.go:210-216 | finds the key with the digest that is not revoked |
| `SqliteStore.Store.Touch` | internal/store/sqlite/store.go:218-221 | sets the time of last use only |
| `SqliteStore.Store.Revoke` | internal/store/sqlite/store.go:223-236 | revokes a key not yet revoked, otherwise reports no row |
| `ApiKeys.VerifyApiKeyScope` | internal/controller/server.go:747-766 | accepts exactly the bootstrap key on admin routes and live stored keys with an admitted scope, and changes nothing but the time of last use of an accepted stored key |
| `ApiKeys.ScopeAllowed` | internal/controller/server.go:768-775 | membership |
| `ApiKeys.AcceptedExactly` | internal/controller/server.go:747-766 | which keys open a route, row by row |
| `ApiKeys.RowAfter` | internal/store/sqlite/store.go:202-236 | a key's whole row after any run: id, digest and scope never change, it is revoked by its first revocation and used at its last use, and no other step matters |
| `ApiKeys.CreatedKeyKeepsItsScope` | internal/controller/server.go:747-766 | a key created with a scope and never revoked opens, after every run, exactly the routes that admit this scope, the bootstrap key's aside |
| `ApiKeys.RowsAreCreated` | internal/store/sqlite/store.go:202-208 | keys come into the table only as they were asked for, under a new id and digest |
| `ApiKeys.RevocationIsPermanent` | internal/store/sqlite/store.go:202-236 | after any further run no other row carries a revoked key's digest, and the key opens a route only as the bootstrap key |
| `ApiKeys.RevokedOnce` | internal/store/sqlite/store.go:223-236 | each key is revoked successfully at most once in a run |
| `ApiKeys.StoredKeyOpensItsScope` | internal/controller/server.go:747-766 | until then it opens exactly the routes that admit its scope |
| `Enrolment.VirtualRoundTrip` | internal/controller/server.go:860-863 | each drawn address parses back to its octets and lies in 10.88.0.0/16 (section 3.1 of RFC 4632) |
| `Enrolment.VirtualInjective` | internal/controller/server.go:860-863 | the dotted-quad printer is injective on its two bytes |
| `Enrolment.MayDrawTheHubAddress` | internal/controller/server.go:462 | one draw is the hub's default address |
| `Enrolment.TablesStaySound` | internal/controller/server.go:426-482 | every interleaving of requests keeps the key constraints and has only drawn addresses |
| `Enrolment.AddressBound` | internal/store/sqlite/store.go:84-97 | every reachable device table has pairwise distinct addresses in 10.88.0.0/16 and at most 65,536 rows |
| `Enrolment.InjectiveCount` | internal/store/sqlite/store.go:89 | the pigeonhole behind that bound |
| `RegistrationServer.RegistrationServer.LookUp` | internal/controller/server.go:426-443 | the look-up and its checks in order, with the refusal each gives |
| `RegistrationServer.ChecksExactly` | internal/controller/server.go:436-443 | which refusal is answered, by the rows of the table |
| `RegistrationServer.RegistrationServer.Create` | internal/controller/server.go:457-476 | the inserted row takes user and group from the invitation read, the address from the draw, the rest from the request |
| `RegistrationServer.RegistrationServer.MarkUsed` | internal/controller/server.go:478-482 | marks only an invitation that is not reusable; a failed mark changes nothing |
| `RegistrationServer.RegistrationServer.Perform` | internal/controller/server.go:387-482 | each store statement of a handler is one step of the abstract system |
| `RegistrationServer.RegistrationServer.Interleave` | internal/controller/server.go:387-482 | any sequence of statements on the store is the abstract run of those steps |
| `RegistrationServer.RegistrationServer.HandleDeviceRegister` | internal/controller/server.go:426-482 | the whole handler with arbitrary steps of others between its statements: which history it makes and which answer it gives, in every case; an answered device has the invitation's user and group, the drawn address, and the rest as requested |
| `RegistrationServer.OthersLeaveAlone` | internal/controller/server.go:426-482 | other requests do not change what a request remembers |
| `OneTime.RunsAreSound` | internal/controller/server.go:426-482 | requests in progress hold a row of the table, up to its mark, and each enrols at most once |
| `OneTime.MarksStay` | internal/store/sqlite/store.go:336-341 | a mark is never undone and an invitation's terms never change |
| `OneTime.DevicesBelong` | internal/controller/server.go:457-472 | in every run each device of the table was enrolled by a logged request, for the user and group of its invitation |
| `OneTime.DevicesAreAsWritten` | internal/controller/server.go:457-472 | in every run each device of the table has the id and address drawn and the name, key, endpoint and token hash requested by one insertion |
| `OneTime.DevicesComeAndGo` | internal/store/sqlite/store.go:343-364 | a device's row stays as it is until it is removed, and a new one comes exactly of a healthy insertion by a request that passed the check, under a free id and address |
| `OneTime.MarksStamp` | internal/store/sqlite/store.go:336-341 | only a healthy mark of a request that inserted on a non-reusable invitation changes its row, and sets the time only |
| `OneTime.InvitationsAreCreated` | internal/store/sqlite/store.go:320-326 | invitations come into the table as they were asked for, unmarked, under a new id and token |
| `OneTime.OneTimeBound` | internal/controller/server.go:426-482 | devices from a non-reusable invitation never exceed the requests that read it before its first successful mark |
| `OneTime.SerialisedOnce` | internal/controller/server.go:426-482 | with one request at a time and no failed mark, at most one device results |
| `RemainingEnrolments.RemainingExactly` | internal/controller/server.go:436-443 | at most k further devices can come of it, whatever requests do, exactly when it is marked or expired and at most k requests that passed the check have yet to insert |
| `RemainingEnrolments.ShutBounds` | internal/controller/server.go:436-482 | once it is marked or expired, each further device uses up a request that had passed the check |
| `RemainingEnrolments.InterleavedRequestsEnrolTwo` | internal/controller/server.go:440-472 | two interleaved requests enrol two devices although no mark fails |
| `RemainingEnrolments.FailedMarkEnrolsTwo` | internal/controller/server.go:478-482 | two requests in turn do so when the first one's mark fails |
| `EnrolledRouting.ListingIsDistinct` | internal/store/sqlite/store.go:84-97 | a listing of any reachable device table has the distinct addresses that routing needs |
| `EnrolledRouting.EnrolledDevicesAreRouted` | internal/controller/server.go:462-477 | whatever history built the table, for every hub, policies and refusals, once both lists have completed: every other agent sends a device's address to the hub only, if the network covers it; the hub passes it on to exactly that device, if its host passes packets on, the device's command went through, no older accepted row has its key, the address is not the hub's, and the hub's address lies in 10.88.0.0/16 |
| `EnrolledRouting.ClaimExactly` | internal/controller/wireguard_hub.go:96-107 | the hub takes a row exactly if it has a key, the hub network covers its address, and its command is not refused |
| `EnrolledRouting.FirstRegistrationIsReached` | internal/store/sqlite/store.go:395-400 | whichever commands were refused, once the hub's list has completed: listing newest first, a hub in the devices' range, on a host that passes packets on, reaches a device whose command went through exactly if no accepted row with its key was registered before it and it did not draw the hub's address |
| `EnrolledRouting.NewRegistrationIsNotReached` | internal/store/sqlite/store.go:395-400 | a device that registers twice with one key: the default hub sends its new address to nobody and its old one to the key |
| `EnrolledRouting.HubAddressIsNotReached` | internal/controller/server.go:462 | a device that drew the default hub's address: its command goes through, and the hub sends the address to nobody |
| `EnrolledRouting.SixteenCovers` | internal/controller/wireguard_hub.go:85 | a /16 around the hub covers a drawn address exactly if the hub lies in the devices' range |
| `EnrolledRouting.OutsideHubServesNobody` | internal/controller/wireguard_hub.go:85-107 | whichever commands were refused, once both lists have completed: a hub outside the devices' range is sent every device's address that its network covers, and reaches none |
| `EnrolledRouting.ForeignHubServesNobody` | internal/controller/wireguard_hub.go:85 | with hub 10.99.0.1 and network 10.0.0.0/8 and two enrolled devices, the agent sends to the hub and the hub to nobody |
| `HubSync.CurrentExactly` | internal/controller/server.go:58-63 | over every interleaving of registrations, deletions, listings and rebuilds, the hub was last built from a listing of the table as it is if and only if, since that listing, no listed device was deleted and every one registered was deleted again |
| `HubSync.TableSince` | internal/controller/server.go:387-482 | the device table after any steps: what was there and what was registered, less what was deleted |
| `HubSync.UnlistedIsUnreached` | internal/controller/wireguard_hub.go:96-107 | a hub built from a listing forwards no address that the listing lacks |
| `HubSync.RegistrationIsLost` | internal/controller/server.go:472-477 | two concurrent registrations of which the first rebuilds last: all handlers are done, and the hub forwards the second device's address to nobody, which it would have from the newer listing |
| `AgentState.FileSystem.FillTemp` | internal/agent/state.go:163-181 | until the rename only the temporary file changes, and the state is written to it only when its mode is 0600 |
| `AgentState.FileSystem.WriteAgentState` | internal/agent/state.go:155-183 | succeeds exactly if every call does, and then the path has mode 0600; at every crash point the path holds the whole old or the whole new state |
| `AgentState.EnsureIdentity` | internal/agent/state.go:79-117 | what it returns, writes and leaves alone for every override, stored state and failing call, and crash safety |
| `AgentState.FileStateStore.Load` | internal/agent/state.go:51-60 | the stored registration, or which error |
| `AgentState.FileStateStore.Save` | internal/agent/state.go:62-77 | keeps the identity, blanks the token hash, replaces the registration; errors leave the file alone; crash safety |
| `AgentState.SavesExactly` | internal/agent/state.go:62-72 | a save is refused before it writes exactly without credentials or over a file that does not decode |
| `AgentState.LoadsExactly` | internal/agent/state.go:51-60 | exactly when a file loads, and with which error it does not |
| `AgentState.ReadAgentState` | internal/agent/state.go:142-153 | absent, undecodable or decoded |
| `AgentState.EnsuredIsStored` | internal/agent/state.go:93-115 | a call that ensured an identity left it complete in the file |
| `AgentState.IdentityExactly` | internal/agent/state.go:93-108 | each part of the identity is the configured one, else the stored one, else made afresh, the fingerprint from the public key; and with which error that fails |
| `AgentState.EnsuresExactly` | internal/agent/state.go:79-92 | a call works on the identity in the file, on none without a file, and fails on a file that does not decode |
| `AgentState.IdentityStays` | internal/agent/state.go:93-97 | a complete stored identity survives every sequence of saves and calls without overrides |
| `AgentState.IdentityNeverChanges` | internal/agent/state.go:79-117 | after one successful call without overrides every later one returns the same identity, whatever saves, failures and crashes come between |
| `AgentState.LoadReturnsLastSaved` | internal/agent/state.go:47-77 | Load returns the last saved registration with a blank token hash, whatever identity writes, failures and crashes come between |
| `AgentState.SavedIsReturned` | internal/agent/state.go:62-77 | after a committed save, whatever identity writes, failures and crashes follow, Load returns the token, the relays and every field of the device as saved but the token hash, which is blank |
| `AgentState.WritesOneHalf` | internal/agent/state.go:69-77 | a save leaves the identity as it was and an identity write the registration, and both stamp the file |
| `AgentState.NeverTorn` | internal/agent/state.go:155-183 | no sequence of calls and crashes makes a readable file unreadable |
| `AgentState.TornStays` | internal/agent/state.go:69-72 | an undecodable file fails every call and is never replaced |
| `AgentState.KeysStayPaired` | internal/agent/state.go:98-108 | without overrides the stored keys always belong together |
| `AgentState.PrivateOverridePairs` | internal/agent/state.go:93-97 | with an overridden private key they do exactly if no other public key is stored |
| `AgentState.PrivateOverrideSplitsPair` | internal/agent/state.go:93-97 | a matching pair is stored and another private key configured: what is returned and stored does not belong together |
| `AgentService.RegistrationClient.Register` | internal/agent/client.go:99-135 | asks once and installs the answer's credentials |
| `AgentService.Service.Begin` | internal/agent/agent.go:62-92 | loads and installs the saved device, or registers and saves, with every error |
| `AgentService.RunAgent` | cmd/linkbit-agent/main.go:36-56 | the program ensures its identity, stops if that fails, and otherwise starts the service: what it leaves in the file and how often it asks to register; with an empty path no file changes and every start asks |
| `AgentService.SavedIsLoaded` | internal/agent/agent.go:84-89 | what a start saved is what the next start loads |
| `AgentService.LaterStartsInstall` | internal/agent/agent.go:62-92 | once a start has saved its answer, every later one that gets past its identity installs the same id and token, and all else of the answer but the token hash and the message |
| `AgentService.StartsExactly` | internal/agent/agent.go:62-92 | exactly how a start fails, and with what it goes on otherwise |
| `AgentService.EnrolOnce` | cmd/linkbit-agent/main.go:36-56 | from a file that loads a device no restart (identity first, then the service) registers again, and each that gets past its identity goes on with that device, whatever overrides, failures and crashes come between |
| `AgentService.RegistersExactly` | internal/agent/agent.go:62-82 | a restart asks to register exactly if it gets past its identity, nothing loads, and it has an enrolment key |
| `AgentService.HealthyEnrolments` | cmd/linkbit-agent/main.go:36-56 | exactly how often healthy restarts enrol: never if the file loads, once if it is absent or lacks credentials, never if it does not decode, because no restart gets past its identity |
| `LockedOut.ShutKeyIsRefused` | internal/controller/server.go:436-443 | a one-time key that is marked or expired passes no check again, whatever the controller does |
| `LockedOut.LockedOutExactly` | internal/agent/agent.go:76-89 | an agent whose file is readable and holds no credentials is given no device for its one-time key by any sequence of restarts from a moment on, whatever the controller does, if and only if the key is marked or expired by then |
| `LockedOut.SaveFailureLocksOut` | internal/agent/agent.go:80-89 | one request with a one-time key runs through, its mark succeeds and the agent's save fails: the agent is locked out from then on |
| `DerpMap.CollidingCodes` | internal/controller/derpmap.go:91-95 | two two-letter codes with one region id, by 32-bit FNV-1a, of which two published values are met |
| `DerpMap.AddRelay` | internal/controller/derpmap.go:24-42 | one eligible relay is appended to its code's region, through the shared pointer |
| `DerpMap.GroupByCode` | internal/controller/derpmap.go:15-43 | each code that occurs has its own region holding its eligible relays in order |
| `DerpMap.BuildDERPMap` | internal/controller/derpmap.go:14-49 | the region map is what some visiting order of the codes assembles |
| `DerpMap.RegionsAreExact` | internal/controller/derpmap.go:45-48 | keys equal region ids in 900..999, one for each id that occurs, so at most 100; each region is the whole of one code |
| `DerpMap.RegionNodesExactly` | internal/controller/derpmap.go:16-43 | a region's nodes are those of its code's relays that are not unhealthy and have a node, in order, each unchanged but for the region id |
| `DerpMap.AnyCodeMaySurvive` | internal/controller/derpmap.go:46-48 | among codes with one id each survives for some order |
| `DerpMap.NodesConserved` | internal/controller/derpmap.go:24-48 | the map's nodes are those of the surviving codes' relays, each once |
| `DerpMap.EveryRelayServedExactly` | internal/controller/derpmap.go:14-49 | every eligible relay is in the map exactly once, for any order, if and only if no two codes share an id |

## Left out

- TLS, dialling, listeners, HTTP parsing and deadlines: a connection is an identity in the broker and two byte queues
  in the stream model; the HTTP server's parser is the step that has seen the whole request.
- How long a released poller takes to look again: others may run in between.
- A read or write error in the middle of a copy: a pump may stop at any moment and both ends be closed, but no byte
  already accepted is lost by the network.
- When an agent fetches its configuration: routing is stated for tables built from one listing of the devices.
- Two rebuilds of the hub whose commands interleave: in `HubSync` a rebuild is one step, and device ids, which are
  random uuids, are never drawn twice.
- That stamps are distinct: `FirstRegistrationIsReached` is about rows of one key with different stamps, while
  `EnrolledDevicesAreRouted` covers any listing order.
- Authentication of devices by token hash, JSON decoding and status codes; a handler is its order of steps.
- Unicode: trimming is modelled on ASCII, case folding as any function on characters, `sanitizeDERPName` not at all.
- Text order of times: `createdAt` is a row's place in the order of the text SQLite compares, in which fractions of
  one second without their trailing zeros are not always in order of time.
- IPv6 addresses, and IPv4 written inside IPv6.
- URL parsing in `relayToDERPNode`: a relay carries the node or its absence.
- The kernel interpretation of several prefixes for one peer: the controller lists at most one per peer, so a longer
  list is a command that fails; claims about the command trace cover any list.
- Interface names, other interfaces' routes and addresses, and packet filtering.
- A nil hub and the hub's construction: `Sync` and `NetworkPeer` are those of a configured hub.
- Database failures other than broken constraints and missing rows, except in registration, where an insert and a
  mark may fail.
- Digests and keys: HMAC, SHA-256 and X25519 are parameters; different keys with one digest count as one key.
- Power loss and write caches: a crash stops the process between system calls, and a rename is atomic.
- Changes to the state file by other processes.
- The rest of `Service.Run` (tunnel, health reports), `Destroy`, dry runs and the private-key files.
- `defaultHubEndpoint`, `validWireGuardEndpoint`, `ParseRelayTarget`: library parsing only.
- Users, groups, relays' own registration, overview, API routing, the web console, the desktop client, packaging.
- DerpMap.BuildDERPMap: node fields other than the region id are carried along uninterpreted.
- AgentState.FileSystem.WriteAgentState: the creation of the directory is only a call that may fail.
