/** The agent's WireGuard manager: it compiles a network configuration into a list of commands. */
module AgentTunnel {
  import opened Wrappers
  import opened Models
  import opened Kernel

  const HUB_ID := "linkbit-hub"
  const MTU: nat := 1180
  const KEEPALIVE: nat := 10

  datatype Error = InterfaceRequired | AddressRequired | CommandFailed

  // ---------------------------------------------------------------- which peers

  predicate IsHub(peer: NetworkPeer) {
    peer.id == HUB_ID || exists a :: a in peer.allowedIPs && a != "" && a != peer.virtualIP + "/32"
  }

  function HubOnly(peers: seq<NetworkPeer>): seq<NetworkPeer> {
    if peers == [] then []
    else
      var n := |peers| - 1;
      HubOnly(peers[..n]) + if IsHub(peers[n]) then [peers[n]] else []
  }

  /** The peers that are configured: only the hubs when there are any. */
  function Selected(peers: seq<NetworkPeer>): seq<NetworkPeer> {
    if HubOnly(peers) != [] then HubOnly(peers) else peers
  }

  method HubOnlyPeers(peers: seq<NetworkPeer>) returns (hubs: seq<NetworkPeer>)
    ensures hubs == HubOnly(peers)
  {
    hubs := [];
    for i := 0 to |peers|
      invariant hubs == HubOnly(peers[..i])
    {
      var peer := peers[i];
      assert peers[..i + 1][..i] == peers[..i];
      if peer.id == HUB_ID {
        hubs := hubs + [peer];
        continue;
      }
      for j := 0 to |peer.allowedIPs|
        invariant hubs == HubOnly(peers[..i])
        invariant forall k :: 0 <= k < j ==> peer.allowedIPs[k] == "" || peer.allowedIPs[k] == peer.virtualIP + "/32"
      {
        if peer.allowedIPs[j] != "" && peer.allowedIPs[j] != peer.virtualIP + "/32" {
          hubs := hubs + [peer];
          assert peer.allowedIPs[j] in peer.allowedIPs;
          break;
        }
      }
    }
    assert peers[..|peers|] == peers;
  }

  method HasHubPeer(peers: seq<NetworkPeer>) returns (has: bool)
    ensures has <==> HubOnly(peers) != []
  {
    var hubs := HubOnlyPeers(peers);
    has := |hubs| > 0;
  }

  /** With a hub present, the configured peers are exactly those that have the hub's id or are given a prefix other
      than their own address, in the order in which they were given. */
  lemma {:induction false} HubOnlyExactly(peers: seq<NetworkPeer>) returns (at: seq<nat>)
    ensures Places(peers, (p: NetworkPeer) =>
              p.id == "linkbit-hub" || exists a :: a in p.allowedIPs && a != "" && a != p.virtualIP + "/32", at)
    ensures |HubOnly(peers)| == |at|
    ensures forall i :: 0 <= i < |at| ==> at[i] < |peers| && HubOnly(peers)[i] == peers[at[i]]
  {
    at := [];
    if peers != [] {
      var before := HubOnlyExactly(peers[..|peers| - 1]);
      at := if IsHub(peers[|peers| - 1]) then before + [|peers| - 1] else before;
      PlacesNext(peers, (p: NetworkPeer) =>
        p.id == "linkbit-hub" || exists a :: a in p.allowedIPs && a != "" && a != p.virtualIP + "/32", before, at);
    }
  }

  // ---------------------------------------------------------------- the command list

  predicate Usable(peer: NetworkPeer) {
    peer.publicKey != "" && peer.virtualIP != ""
  }

  /** The prefixes a peer is given: its own address unless the controller listed some. */
  function Claims(peer: NetworkPeer): seq<string> {
    if peer.allowedIPs == [] then [peer.virtualIP + "/32"] else peer.allowedIPs
  }

  function PeerCommands(peer: NetworkPeer): seq<Command> {
    if !Usable(peer) then []
    else if peer.endpoint == "" then [SetPeer(peer.publicKey, Claims(peer))]
    else [SetPeer(peer.publicKey, Claims(peer)), SetEndpoint(peer.publicKey, peer.endpoint),
          SetKeepalive(peer.publicKey, KEEPALIVE)]
  }

  function PeersLines(peers: seq<NetworkPeer>): seq<Line> {
    if peers == [] then [] else PeersLines(peers[..|peers| - 1]) + Must(PeerCommands(peers[|peers| - 1]))
  }

  function Routes(peers: seq<NetworkPeer>): seq<string> {
    if peers == [] then []
    else
      var p := peers[|peers| - 1];
      Routes(peers[..|peers| - 1]) + if Usable(p) then Claims(p) else []
  }

  function RouteLines(routes: seq<string>): seq<Line> {
    seq(|routes|, i requires 0 <= i < |routes| => Line(RouteReplace(routes[i]), true))
  }

  /** `warmWireGuardHub` pings the first hub that has an address. */
  function WarmLines(peers: seq<NetworkPeer>): seq<Line> {
    if peers == [] then []
    else if peers[0].id == HUB_ID && peers[0].virtualIP != "" then [Line(Ping(peers[0].virtualIP), false)]
    else WarmLines(peers[1..])
  }

  /** Which address is pinged: that of the first peer with the hub's id that has an address. */
  predicate FirstHub(peers: seq<NetworkPeer>, k: nat) {
    && k < |peers| && peers[k].id == "linkbit-hub" && peers[k].virtualIP != ""
    && forall j :: 0 <= j < k ==> peers[j].id != "linkbit-hub" || peers[j].virtualIP == ""
  }

  /** Nothing else is issued, and nothing at all without such a peer. */
  lemma {:induction false} WarmsFirstHub(peers: seq<NetworkPeer>)
    ensures forall k: nat :: FirstHub(peers, k) ==> Commands(WarmLines(peers)) == [Ping(peers[k].virtualIP)]
    ensures (forall k: nat :: !FirstHub(peers, k)) ==> WarmLines(peers) == []
    decreases |peers|
  {
    if peers != [] {
      assert FirstHub(peers, 0) <==> peers[0].id == "linkbit-hub" && peers[0].virtualIP != "";
      if !FirstHub(peers, 0) {
        var rest := peers[1..];
        WarmsFirstHub(rest);
        forall k: nat ensures FirstHub(rest, k) <==> FirstHub(peers, k + 1) {
          assert FirstHub(rest, k) ==> forall j :: 0 < j < k + 1 ==> peers[j] == rest[j - 1];
          assert FirstHub(peers, k + 1) ==> forall j :: 0 <= j < k ==> peers[j + 1] == rest[j];
        }
        forall k: nat | FirstHub(peers, k) ensures k > 0 && FirstHub(rest, k - 1) {
          assert k > 0;
          assert FirstHub(peers, (k - 1) + 1);
        }
      }
    }
  }

  function Head(virtualIP: string, keyFile: string): seq<Line> {
    [Line(LinkDel, false), Line(LinkAdd, true)]
    + (if keyFile == "" then [] else [Line(SetKey(keyFile), true)])
    + [Line(AddressAdd(virtualIP + "/32"), true)]
  }

  const UP_LINES := [Line(SetMtu(MTU), true), Line(SetUp, true)]

  /** Everything `applyCommands` issues when nothing fails, in order. */
  function Script(virtualIP: string, keyFile: string, peers: seq<NetworkPeer>): seq<Line> {
    Head(virtualIP, keyFile) + PeersLines(peers) + UP_LINES + RouteLines(Routes(peers)) + WarmLines(peers)
  }

  method WarmWireGuardHub(runner: CommandRunner, peers: seq<NetworkPeer>)
    modifies runner
    ensures (runner.State(), true) == RunLines(runner.accepts, old(runner.State()), WarmLines(peers))
  {
    for i := 0 to |peers|
      invariant runner.State() == old(runner.State())
      invariant WarmLines(peers) == WarmLines(peers[i..])
    {
      if peers[i].id == HUB_ID && peers[i].virtualIP != "" {
        var _ := runner.Run(Ping(peers[i].virtualIP));
        return;
      }
      assert peers[i..][1..] == peers[i + 1..];
    }
  }

  /** If the list so far succeeded and its next block fails, the whole list stops there. */
  lemma BlockFails(accepts: Verdict, start: Machine, done: seq<Line>, mid: Machine, block: seq<Line>, end: Machine,
                   rest: seq<Line>)
    requires RunLines(accepts, start, done) == (mid, true) && RunLines(accepts, mid, block) == (end, false)
    ensures RunLines(accepts, start, done + block + rest) == (end, false)
  {
    RunLinesConcat(accepts, start, done, block);
    RunLinesConcat(accepts, start, done + block, rest);
  }

  lemma BlockSucceeds(accepts: Verdict, start: Machine, done: seq<Line>, mid: Machine, block: seq<Line>, end: Machine)
    requires RunLines(accepts, start, done) == (mid, true) && RunLines(accepts, mid, block) == (end, true)
    ensures RunLines(accepts, start, done + block) == (end, true)
  {
    RunLinesConcat(accepts, start, done, block);
  }

  lemma OneLine(accepts: Verdict, m: Machine, line: Line)
    ensures RunLines(accepts, m, [line]) ==
            (Perform(accepts, m, line.command).0, !line.checked || Perform(accepts, m, line.command).1)
  {
  }

  lemma ThreeLines(accepts: Verdict, m: Machine, a: Line, b: Line, c: Line)
    ensures RunLines(accepts, m, [a, b, c]) ==
            var (m', ok) := RunLines(accepts, m, [a]); if ok then RunLines(accepts, m', [b, c]) else (m', false)
  {
    RunLinesConcat(accepts, m, [a], [b, c]);
    assert [a] + [b, c] == [a, b, c];
  }

  lemma TwoLines(accepts: Verdict, m: Machine, a: Line, b: Line)
    ensures RunLines(accepts, m, [a, b]) ==
            var (m', ok) := RunLines(accepts, m, [a]); if ok then RunLines(accepts, m', [b]) else (m', false)
  {
    RunLinesConcat(accepts, m, [a], [b]);
    assert [a] + [b] == [a, b];
  }

  /** The commands before the peers. */
  method CreateInterface(runner: CommandRunner, virtualIP: string, keyFile: string) returns (ok: bool)
    modifies runner
    ensures (runner.State(), ok) == RunLines(runner.accepts, old(runner.State()), Head(virtualIP, keyFile))
  {
    ghost var start := runner.State();
    var _ := runner.Run(LinkDel);
    OneLine(runner.accepts, start, Line(LinkDel, false));
    TwoLines(runner.accepts, start, Line(LinkDel, false), Line(LinkAdd, true));
    OneLine(runner.accepts, runner.State(), Line(LinkAdd, true));
    ghost var first, rest := [Line(LinkDel, false), Line(LinkAdd, true)],
                             (if keyFile == "" then [] else [Line(SetKey(keyFile), true)])
                             + [Line(AddressAdd(virtualIP + "/32"), true)];
    assert Head(virtualIP, keyFile) == first + rest;
    RunLinesConcat(runner.accepts, start, first, rest);
    ok := runner.Run(LinkAdd);
    if !ok {
      return;
    }
    ghost var mid := runner.State();
    OneLine(runner.accepts, mid, Line(SetKey(keyFile), true));
    if keyFile != "" {
      TwoLines(runner.accepts, mid, Line(SetKey(keyFile), true), Line(AddressAdd(virtualIP + "/32"), true));
      ok := runner.Run(SetKey(keyFile));
      if !ok {
        return;
      }
    }
    OneLine(runner.accepts, runner.State(), Line(AddressAdd(virtualIP + "/32"), true));
    ok := runner.Run(AddressAdd(virtualIP + "/32"));
  }

  /** The body of the loop over the peers; `routes` are the routes it asks for. */
  method ConfigurePeer(runner: CommandRunner, peer: NetworkPeer) returns (ok: bool, routes: seq<string>)
    modifies runner
    ensures (runner.State(), ok) == RunLines(runner.accepts, old(runner.State()), Must(PeerCommands(peer)))
    ensures ok ==> routes == if Usable(peer) then Claims(peer) else []
  {
    ok, routes := true, [];
    if peer.publicKey == "" || peer.virtualIP == "" {
      return;
    }
    var allowedIPs := peer.allowedIPs;
    if |allowedIPs| == 0 {
      allowedIPs := [peer.virtualIP + "/32"];
    }
    ghost var lines := Must(PeerCommands(peer));
    ghost var first := Line(SetPeer(peer.publicKey, allowedIPs), true);
    OneLine(runner.accepts, runner.State(), first);
    if peer.endpoint == "" {
      assert lines == [first];
    } else {
      var second, third := Line(SetEndpoint(peer.publicKey, peer.endpoint), true),
          Line(SetKeepalive(peer.publicKey, KEEPALIVE), true);
      assert lines == [first, second, third];
      ThreeLines(runner.accepts, runner.State(), first, second, third);
    }
    ok := runner.Run(SetPeer(peer.publicKey, allowedIPs));
    if !ok {
      return;
    }
    if peer.endpoint != "" {
      ghost var second, third := Line(SetEndpoint(peer.publicKey, peer.endpoint), true),
          Line(SetKeepalive(peer.publicKey, KEEPALIVE), true);
      TwoLines(runner.accepts, runner.State(), second, third);
      OneLine(runner.accepts, runner.State(), second);
      ok := runner.Run(SetEndpoint(peer.publicKey, peer.endpoint));
      if !ok {
        return;
      }
      OneLine(runner.accepts, runner.State(), third);
      ok := runner.Run(SetKeepalive(peer.publicKey, KEEPALIVE));
      if !ok {
        return;
      }
    }
    for i := 0 to |allowedIPs|
      invariant routes == allowedIPs[..i]
    {
      routes := routes + [allowedIPs[i]];
    }
  }

  method ConfigurePeers(runner: CommandRunner, peers: seq<NetworkPeer>) returns (ok: bool, routes: seq<string>)
    modifies runner
    ensures (runner.State(), ok) == RunLines(runner.accepts, old(runner.State()), PeersLines(peers))
    ensures ok ==> routes == Routes(peers)
  {
    ghost var start := runner.State();
    routes := [];
    for i := 0 to |peers|
      invariant RunLines(runner.accepts, start, PeersLines(peers[..i])) == (runner.State(), true)
      invariant routes == Routes(peers[..i])
    {
      ghost var mid := runner.State();
      assert peers[..i + 1][..i] == peers[..i];
      var more;
      ok, more := ConfigurePeer(runner, peers[i]);
      if !ok {
        PeersLinesSplit(peers, i + 1);
        var rest :| PeersLines(peers) == PeersLines(peers[..i + 1]) + rest;
        BlockFails(runner.accepts, start, PeersLines(peers[..i]), mid, Must(PeerCommands(peers[i])), runner.State(),
                   rest);
        return;
      }
      BlockSucceeds(runner.accepts, start, PeersLines(peers[..i]), mid, Must(PeerCommands(peers[i])), runner.State());
      routes := routes + more;
    }
    assert peers[..|peers|] == peers;
    ok := true;
  }

  lemma Regroup(a: seq<Line>, b: seq<Line>, c: seq<Line>)
    ensures (a + b) + c == a + (b + c)
  {
  }

  lemma {:induction false} PeersLinesSplit(peers: seq<NetworkPeer>, i: nat)
    requires i <= |peers|
    ensures exists rest :: PeersLines(peers) == PeersLines(peers[..i]) + rest
  {
    if i == |peers| {
      assert peers[..i] == peers && PeersLines(peers) == PeersLines(peers) + [];
    } else {
      var n := |peers| - 1;
      PeersLinesSplit(peers[..n], i);
      assert peers[..n][..i] == peers[..i];
      var first, last := PeersLines(peers[..i]), Must(PeerCommands(peers[n]));
      var rest :| PeersLines(peers[..n]) == first + rest;
      Regroup(first, rest, last);
    }
  }

  lemma FiveParts(a: seq<Line>, b: seq<Line>, c: seq<Line>, d: seq<Line>, e: seq<Line>)
    ensures [] + a + (b + c + d + e) == a + b + c + d + e
    ensures a + b + (c + d + e) == a + b + c + d + e
    ensures a + b + c + (d + e) == a + b + c + d + e
  {
  }

  method BringUp(runner: CommandRunner) returns (ok: bool)
    modifies runner
    ensures (runner.State(), ok) == RunLines(runner.accepts, old(runner.State()), UP_LINES)
  {
    TwoLines(runner.accepts, runner.State(), Line(SetMtu(MTU), true), Line(SetUp, true));
    OneLine(runner.accepts, runner.State(), Line(SetMtu(MTU), true));
    ok := runner.Run(SetMtu(MTU));
    if !ok {
      return;
    }
    OneLine(runner.accepts, runner.State(), Line(SetUp, true));
    ok := runner.Run(SetUp);
  }

  lemma RouteLinesSplit(routes: seq<string>, i: nat)
    requires i < |routes|
    ensures RouteLines(routes[..i + 1]) == RouteLines(routes[..i]) + [Line(RouteReplace(routes[i]), true)]
    ensures RouteLines(routes) ==
            RouteLines(routes[..i]) + [Line(RouteReplace(routes[i]), true)] + RouteLines(routes[i + 1..])
  {
  }

  method AddRoutes(runner: CommandRunner, routes: seq<string>) returns (ok: bool)
    modifies runner
    ensures (runner.State(), ok) == RunLines(runner.accepts, old(runner.State()), RouteLines(routes))
  {
    ghost var start := runner.State();
    for i := 0 to |routes|
      invariant RunLines(runner.accepts, start, RouteLines(routes[..i])) == (runner.State(), true)
    {
      ghost var mid, line := runner.State(), Line(RouteReplace(routes[i]), true);
      OneLine(runner.accepts, mid, line);
      RouteLinesSplit(routes, i);
      ok := runner.Run(RouteReplace(routes[i]));
      if !ok {
        BlockFails(runner.accepts, start, RouteLines(routes[..i]), mid, [line], runner.State(),
                   RouteLines(routes[i + 1..]));
        return;
      }
      BlockSucceeds(runner.accepts, start, RouteLines(routes[..i]), mid, [line], runner.State());
    }
    assert routes[..|routes|] == routes;
    ok := true;
  }

  /** `applyCommands`: it issues exactly its script, up to the first checked command that fails. */
  method ApplyCommands(runner: CommandRunner, iface: string, virtualIP: string, keyFile: string,
                       peers: seq<NetworkPeer>)
    returns (err: Option<Error>)
    modifies runner
    ensures iface == "" ==> err == Some(InterfaceRequired) && runner.State() == old(runner.State())
    ensures iface != "" && virtualIP == "" ==> err == Some(AddressRequired) && runner.State() == old(runner.State())
    ensures iface != "" && virtualIP != "" ==>
      && (runner.State(), err.None?) ==
         RunLines(runner.accepts, old(runner.State()), Script(virtualIP, keyFile, Selected(peers)))
      && (err.Some? ==> err.value == CommandFailed)
  {
    if iface == "" {
      return Some(InterfaceRequired);
    }
    if virtualIP == "" {
      return Some(AddressRequired);
    }
    ghost var start := runner.State();
    ghost var chosen := Selected(peers);
    ghost var a, b, c, d, e := Head(virtualIP, keyFile), PeersLines(chosen), UP_LINES, RouteLines(Routes(chosen)),
        WarmLines(chosen);
    FiveParts(a, b, c, d, e);
    var ok := CreateInterface(runner, virtualIP, keyFile);
    if !ok {
      BlockFails(runner.accepts, start, [], start, a, runner.State(), b + c + d + e);
      return Some(CommandFailed);
    }
    var selected := peers;
    var has := HasHubPeer(peers);
    if has {
      selected := HubOnlyPeers(peers);
    }
    ghost var m1 := runner.State();
    var routes;
    ok, routes := ConfigurePeers(runner, selected);
    if !ok {
      BlockFails(runner.accepts, start, a, m1, b, runner.State(), c + d + e);
      return Some(CommandFailed);
    }
    ghost var m2 := runner.State();
    BlockSucceeds(runner.accepts, start, a, m1, b, m2);
    ok := BringUp(runner);
    if !ok {
      BlockFails(runner.accepts, start, a + b, m2, c, runner.State(), d + e);
      return Some(CommandFailed);
    }
    ghost var m3 := runner.State();
    BlockSucceeds(runner.accepts, start, a + b, m2, c, m3);
    ok := AddRoutes(runner, routes);
    if !ok {
      BlockFails(runner.accepts, start, a + b + c, m3, d, runner.State(), e);
      return Some(CommandFailed);
    }
    BlockSucceeds(runner.accepts, start, a + b + c, m3, d, runner.State());
    ghost var m4 := runner.State();
    WarmWireGuardHub(runner, selected);
    BlockSucceeds(runner.accepts, start, a + b + c + d, m4, e, runner.State());
    return None;
  }
}
