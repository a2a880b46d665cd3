/** What the agent's command list means: the interface state its network configuration denotes. */
module TunnelMeaning {
  import opened Wrappers
  import opened Models
  import opened Addresses
  import opened Kernel
  import opened AgentTunnel

  // ---------------------------------------------------------------- the state a configuration denotes

  /** The peer is given exactly one prefix, and it parses. */
  predicate Single(p: NetworkPeer) {
    |Claims(p)| == 1 && Prefix(Claims(p)[0]).Some?
  }

  /** Its own address, unless the controller listed another prefix. */
  function PrefixOf(p: NetworkPeer): Cidr {
    var text := if p.allowedIPs == [] then p.virtualIP + "/32" else p.allowedIPs[0];
    if Single(p) && Prefix(text).Some? then Prefix(text).value else Cidr(0, 0)
  }

  /** A peer without a key or an address is not listed. */
  predicate Lists(ps: seq<NetworkPeer>, j: int, key: string) {
    0 <= j < |ps| && ps[j].publicKey != "" && ps[j].virtualIP != "" && ps[j].publicKey == key
  }

  /** The peer at `j` is the last to claim the prefix, and its key claims nothing after that. */
  predicate LastClaim(ps: seq<NetworkPeer>, j: int, c: Cidr, key: string) {
    && Lists(ps, j, key) && PrefixOf(ps[j]) == c
    && forall l :: j < l < |ps| && Lists(ps, l, ps[l].publicKey) ==> ps[l].publicKey != key && PrefixOf(ps[l]) != c
  }

  ghost predicate Claimed(ps: seq<NetworkPeer>, c: Cidr, key: string) {
    exists j :: LastClaim(ps, j, c, key)
  }

  predicate Owns(i: Iface, key: string, c: Cidr) {
    c in i.owner && i.owner[c] == key
  }

  predicate Wants(ps: seq<NetworkPeer>, j: int, c: Cidr) {
    0 <= j < |ps| && Lists(ps, j, ps[j].publicKey) && PrefixOf(ps[j]) == c
  }

  /** The last endpoint listed for a key. */
  function LastEndpoint(ps: seq<NetworkPeer>, key: string): Option<string> {
    if ps == [] then None
    else
      var p := ps[|ps| - 1];
      if Lists(ps, |ps| - 1, key) && p.endpoint != "" then Some(p.endpoint)
          else LastEndpoint(ps[..|ps| - 1], key)
  }

  function Settings(endpoint: Option<string>): Peer {
    Peer(endpoint, if endpoint.Some? then 10 else 0)
  }

  ghost predicate PeersDenoted(i: Iface, ps: seq<NetworkPeer>) {
    && (forall k :: k in i.peers <==> exists j :: Lists(ps, j, k))
    && (forall k :: k in i.peers ==> i.peers[k] == Settings(LastEndpoint(ps, k)))
    && (forall c, k :: Owns(i, k, c) <==> Claimed(ps, c, k))
  }

  /** The interface a configuration denotes, for any list of peers: repeated keys and contested prefixes
      go to the last claim. */
  ghost predicate Denotes(i: Iface, virtualIP: string, keyFile: string, ps: seq<NetworkPeer>) {
    && i.key == (if keyFile == "" then None else Some(keyFile)) && i.port == None
    && ParseCidr(virtualIP + "/32").Some? && i.addresses == {ParseCidr(virtualIP + "/32").value}
    && i.mtu == 1180 && i.up
    && PeersDenoted(i, ps)
    && (forall c :: c in i.routes <==> exists j :: Wants(ps, j, c))
  }

  /** A configuration denotes one interface at most. */
  lemma DenotesOne(i: Iface, i': Iface, virtualIP: string, keyFile: string, ps: seq<NetworkPeer>)
    requires Denotes(i, virtualIP, keyFile, ps) && Denotes(i', virtualIP, keyFile, ps)
    ensures i == i'
  {
    assert i.peers == i'.peers;
    forall c | c in i.owner ensures Owns(i', i.owner[c], c) {
      assert Owns(i, i.owner[c], c);
    }
    forall c | c in i'.owner ensures Owns(i, i'.owner[c], c) {
      assert Owns(i', i'.owner[c], c);
    }
    assert i.owner == i'.owner;
    assert i.routes == i'.routes;
  }

  // ---------------------------------------------------------------- what the peers' commands do

  function AfterPeer(i: Iface, p: NetworkPeer): Iface {
    if !Usable(p) then i
    else
      var given := GivePrefix(i, p.publicKey, PrefixOf(p));
      if p.endpoint == "" then given
      else given.(peers := given.peers[p.publicKey := Peer(Some(p.endpoint), KEEPALIVE)])
  }

  function AfterPeers(i: Iface, ps: seq<NetworkPeer>): Iface {
    if ps == [] then i else AfterPeer(AfterPeers(i, ps[..|ps| - 1]), ps[|ps| - 1])
  }

  /** How the last claims change when a peer is added. */
  lemma LastClaimNext(ps: seq<NetworkPeer>, p: NetworkPeer, j: nat, c: Cidr, k: string)
    requires Usable(p)
    ensures j < |ps| ==>
              (LastClaim(ps + [p], j, c, k) <==> LastClaim(ps, j, c, k) && k != p.publicKey && c != PrefixOf(p))
    ensures LastClaim(ps + [p], |ps|, c, k) <==> k == p.publicKey && c == PrefixOf(p)
  {
    var more, n := ps + [p], |ps|;
    assert more[n] == p && Lists(more, n, p.publicKey);
    assert forall l :: 0 <= l < n ==> more[l] == ps[l];
  }

  lemma OwnerStep(i: Iface, ps: seq<NetworkPeer>, p: NetworkPeer, c: Cidr, k: string)
    requires Usable(p)
    requires Owns(i, k, c) <==> Claimed(ps, c, k)
    ensures Owns(AfterPeer(i, p), k, c) <==> Claimed(ps + [p], c, k)
  {
    forall j: nat ensures j < |ps| ==>
        (LastClaim(ps + [p], j, c, k) <==> LastClaim(ps, j, c, k) && k != p.publicKey && c != PrefixOf(p))
    {
      LastClaimNext(ps, p, j, c, k);
    }
    LastClaimNext(ps, p, |ps|, c, k);
    OwnerAfter(i, p, c, k);
  }

  lemma OwnerAfter(i: Iface, p: NetworkPeer, c: Cidr, k: string)
    requires Usable(p)
    ensures Owns(AfterPeer(i, p), k, c) <==>
            (k == p.publicKey && c == PrefixOf(p)) || (Owns(i, k, c) && k != p.publicKey && c != PrefixOf(p))
  {
  }

  lemma KeysStep(i: Iface, ps: seq<NetworkPeer>, p: NetworkPeer, k: string)
    requires k in i.peers <==> exists j :: Lists(ps, j, k)
    ensures k in AfterPeer(i, p).peers <==> exists j :: Lists(ps + [p], j, k)
  {
    var more, n := ps + [p], |ps|;
    assert Lists(more, n, k) <==> Usable(p) && p.publicKey == k;
    forall j | j < n ensures Lists(more, j, k) <==> Lists(ps, j, k) {}
  }

  lemma SettingsStep(i: Iface, ps: seq<NetworkPeer>, p: NetworkPeer, k: string)
    requires k in AfterPeer(i, p).peers
    requires k in i.peers ==> i.peers[k] == Settings(LastEndpoint(ps, k))
    requires k !in i.peers ==> LastEndpoint(ps, k) == None
    ensures AfterPeer(i, p).peers[k] == Settings(LastEndpoint(ps + [p], k))
  {
    assert (ps + [p])[..|ps|] == ps;
  }

  lemma OwnersStep(i: Iface, ps: seq<NetworkPeer>, p: NetworkPeer, c: Cidr, k: string)
    requires Owns(i, k, c) <==> Claimed(ps, c, k)
    ensures Owns(AfterPeer(i, p), k, c) <==> Claimed(ps + [p], c, k)
  {
    if Usable(p) {
      OwnerStep(i, ps, p, c, k);
    } else {
      var more, n := ps + [p], |ps|;
      forall j ensures LastClaim(more, j, c, k) <==> LastClaim(ps, j, c, k) {
        assert forall l :: 0 <= l < n ==> more[l] == ps[l];
      }
    }
  }

  lemma PeerStep(i: Iface, ps: seq<NetworkPeer>, p: NetworkPeer)
    requires PeersDenoted(i, ps)
    ensures PeersDenoted(AfterPeer(i, p), ps + [p])
  {
    var more, i' := ps + [p], AfterPeer(i, p);
    forall k ensures k in i'.peers <==> exists j :: Lists(more, j, k) {
      KeysStep(i, ps, p, k);
    }
    forall k | k in i'.peers ensures i'.peers[k] == Settings(LastEndpoint(more, k)) {
      if k !in i.peers && LastEndpoint(ps, k).Some? {
        var j := EndpointIsListed(ps, k);
        assert false;
      }
      SettingsStep(i, ps, p, k);
    }
    forall c, k ensures Owns(i', k, c) <==> Claimed(more, c, k) {
      OwnersStep(i, ps, p, c, k);
    }
  }

  lemma {:induction false} EndpointIsListed(ps: seq<NetworkPeer>, key: string) returns (j: nat)
    requires LastEndpoint(ps, key).Some?
    ensures Lists(ps, j, key)
  {
    var n := |ps| - 1;
    if Usable(ps[n]) && ps[n].publicKey == key && ps[n].endpoint != "" {
      j := n;
    } else {
      j := EndpointIsListed(ps[..n], key);
    }
  }

  lemma {:induction false} PeersStep(i: Iface, ps: seq<NetworkPeer>)
    requires i.peers == map[] && i.owner == map[]
    ensures PeersDenoted(AfterPeers(i, ps), ps)
    ensures AfterPeers(i, ps) == i.(peers := AfterPeers(i, ps).peers, owner := AfterPeers(i, ps).owner)
  {
    if ps != [] {
      var n := |ps| - 1;
      PeersStep(i, ps[..n]);
      PeerStep(AfterPeers(i, ps[..n]), ps[..n], ps[n]);
      assert ps[..n] + [ps[n]] == ps;
    }
  }

  // ---------------------------------------------------------------- running the list

  lemma SetPeerRuns(accepts: Verdict, m: Machine, p: NetworkPeer)
    requires m.net.Some?
    ensures var (m', ok) := RunLines(accepts, m, [Line(SetPeer(p.publicKey, Claims(p)), true)]);
            && (ok ==> Single(p) && m'.net == Some(GivePrefix(m.net.value, p.publicKey, PrefixOf(p))))
            && (Willing(accepts) && Single(p) ==> ok)
  {
    OneLine(accepts, m, Line(SetPeer(p.publicKey, Claims(p)), true));
  }

  lemma EndpointPerforms(accepts: Verdict, m: Machine, key: string, endpoint: string)
    requires m.net.Some? && key in m.net.value.peers
    ensures var (m', ok) := Perform(accepts, m, SetEndpoint(key, endpoint)); var i := m.net.value;
            && (ok ==> m'.net == Some(i.(peers := i.peers[key := Peer(Some(endpoint), i.peers[key].keepalive)])))
            && (Willing(accepts) ==> ok)
  {
  }

  lemma KeepalivePerforms(accepts: Verdict, m: Machine, key: string)
    requires m.net.Some? && key in m.net.value.peers
    ensures var (m', ok) := Perform(accepts, m, SetKeepalive(key, KEEPALIVE)); var i := m.net.value;
            && (ok ==> m'.net == Some(i.(peers := i.peers[key := Peer(i.peers[key].endpoint, KEEPALIVE)])))
            && (Willing(accepts) ==> ok)
  {
  }

  lemma EndpointRuns(accepts: Verdict, m: Machine, key: string, endpoint: string)
    requires m.net.Some? && key in m.net.value.peers
    ensures var (m', ok) := RunLines(accepts, m,
                                     [Line(SetEndpoint(key, endpoint), true),
                                      Line(SetKeepalive(key, KEEPALIVE), true)]);
            && (ok ==> m'.net == Some(m.net.value.(peers := m.net.value.peers[key := Peer(Some(endpoint), KEEPALIVE)])))
            && (Willing(accepts) ==> ok)
  {
    var second, third := Line(SetEndpoint(key, endpoint), true), Line(SetKeepalive(key, KEEPALIVE), true);
    TwoLines(accepts, m, second, third);
    OneLine(accepts, m, second);
    EndpointPerforms(accepts, m, key, endpoint);
    var (m', ok) := Perform(accepts, m, second.command);
    OneLine(accepts, m', third);
    if ok {
      KeepalivePerforms(accepts, m', key);
      Overwrite(m.net.value.peers, key, Peer(Some(endpoint), m.net.value.peers[key].keepalive),
                Peer(Some(endpoint), KEEPALIVE));
    }
  }

  lemma Overwrite(peers: map<string, Peer>, key: string, p: Peer, q: Peer)
    ensures peers[key := p][key := q] == peers[key := q]
  {
  }

  lemma PeerRuns(accepts: Verdict, m: Machine, p: NetworkPeer)
    requires m.net.Some?
    ensures var (m', ok) := RunLines(accepts, m, Must(PeerCommands(p)));
            && (ok ==> (Usable(p) ==> Single(p)) && m'.net == Some(AfterPeer(m.net.value, p)))
            && (Willing(accepts) && (Usable(p) ==> Single(p)) ==> ok)
  {
    var lines := Must(PeerCommands(p));
    if Usable(p) {
      var first := [Line(SetPeer(p.publicKey, Claims(p)), true)];
      SetPeerRuns(accepts, m, p);
      if p.endpoint == "" {
        assert lines == first;
      } else {
        var rest := [Line(SetEndpoint(p.publicKey, p.endpoint), true),
                     Line(SetKeepalive(p.publicKey, KEEPALIVE), true)];
        assert lines == first + rest;
        RunLinesConcat(accepts, m, first, rest);
        var (m', ok) := RunLines(accepts, m, first);
        if ok {
          EndpointRuns(accepts, m', p.publicKey, p.endpoint);
        }
      }
    }
  }

  /** The outside world never refuses a command, except perhaps the sysctl. */
  ghost predicate Willing(accepts: Verdict) {
    forall issued, command :: command != EnableForwarding ==> accepts(issued, command)
  }

  predicate AllSingle(ps: seq<NetworkPeer>) {
    forall p :: p in ps && Usable(p) ==> Single(p)
  }

  lemma {:induction false} PeersRun(accepts: Verdict, m: Machine, ps: seq<NetworkPeer>)
    requires m.net.Some?
    ensures var (m', ok) := RunLines(accepts, m, PeersLines(ps));
            && (ok ==> AllSingle(ps) && m'.net == Some(AfterPeers(m.net.value, ps)))
            && (Willing(accepts) && AllSingle(ps) ==> ok)
  {
    if ps != [] {
      var n := |ps| - 1;
      PeersRun(accepts, m, ps[..n]);
      var (m', ok) := RunLines(accepts, m, PeersLines(ps[..n]));
      RunLinesConcat(accepts, m, PeersLines(ps[..n]), Must(PeerCommands(ps[n])));
      assert ps[..n] + [ps[n]] == ps;
      if ok {
        PeerRuns(accepts, m', ps[n]);
      }
    }
  }

  predicate Routable(routes: seq<string>) {
    forall r :: r in routes ==> Route(r).Some?
  }

  /** The prefix of each peer is written without host bits. */
  predicate AllExact(ps: seq<NetworkPeer>) {
    forall p :: p in ps && Usable(p) ==> Single(p) && Route(Claims(p)[0]).Some?
  }

  function Prefixes(routes: seq<string>): set<Cidr> {
    set r | r in routes && Prefix(r).Some? :: Prefix(r).value
  }

  lemma RoutePerforms(accepts: Verdict, m: Machine, route: string)
    requires m.net.Some? && m.net.value.up
    ensures var (m', ok) := Perform(accepts, m, RouteReplace(route)); var i := m.net.value;
            && (ok ==> Route(route).Some? && m'.net == Some(i.(routes := i.routes + {Route(route).value})))
            && (Willing(accepts) && Route(route).Some? ==> ok)
  {
  }

  lemma FirstRoute(route: string, rest: seq<string>)
    ensures Routable([route] + rest) <==> Route(route).Some? && Routable(rest)
    ensures Route(route).Some? ==> Prefixes([route] + rest) == {Route(route).value} + Prefixes(rest)
  {
    forall r ensures r in [route] + rest <==> r == route || r in rest {}
    assert route in [route] + rest;
  }

  lemma {:induction false} RoutesRun(accepts: Verdict, m: Machine, routes: seq<string>)
    requires m.net.Some? && m.net.value.up
    ensures var (m', ok) := RunLines(accepts, m, RouteLines(routes));
            && (ok ==>
                  Routable(routes) && m'.net == Some(m.net.value.(routes := m.net.value.routes + Prefixes(routes))))
            && (Willing(accepts) && Routable(routes) ==> ok)
    decreases |routes|
  {
    if routes == [] {
      assert Prefixes(routes) == {};
      assert m.net.value.routes + {} == m.net.value.routes;
    } else {
      var rest := routes[1..];
      assert RouteLines(routes)[1..] == RouteLines(rest);
      assert routes == [routes[0]] + rest;
      RoutePerforms(accepts, m, routes[0]);
      FirstRoute(routes[0], rest);
      var (m', ok) := Perform(accepts, m, RouteReplace(routes[0]));
      if ok {
        RoutesRun(accepts, m', rest);
        var i := m.net.value;
        assert i.routes + {Route(routes[0]).value} + Prefixes(rest) == i.routes + Prefixes(routes);
      }
    }
  }

  lemma PrefixesOf(before: seq<string>, p: NetworkPeer, c: Cidr)
    requires Single(p)
    ensures c in Prefixes(before + Claims(p)) <==> c in Prefixes(before) || PrefixOf(p) == c
  {
    var all := before + Claims(p);
    assert Claims(p) == [Claims(p)[0]] && Claims(p)[0] in all;
    forall r ensures r in all <==> r in before || r == Claims(p)[0] {}
  }

  lemma {:induction false} RoutesAreClaims(ps: seq<NetworkPeer>)
    requires AllSingle(ps)
    ensures Routable(Routes(ps)) <==> AllExact(ps)
    ensures forall c :: c in Prefixes(Routes(ps)) <==> exists j :: Wants(ps, j, c)
  {
    if ps != [] {
      var n := |ps| - 1;
      var before, p := ps[..n], ps[n];
      RoutesAreClaims(before);
      assert p in ps;
      assert Usable(p) ==> Claims(p) == [Claims(p)[0]];
      assert Routes(before) + [] == Routes(before);
      forall c ensures c in Prefixes(Routes(ps)) <==> exists j :: Wants(ps, j, c) {
        if Usable(p) {
          PrefixesOf(Routes(before), p, c);
        }
        WantsStep(ps, c);
      }
    }
  }

  lemma WantsBefore(ps: seq<NetworkPeer>, j: nat, c: Cidr)
    requires ps != []
    ensures j < |ps| - 1 ==> (Wants(ps, j, c) <==> Wants(ps[..|ps| - 1], j, c))
    ensures Wants(ps, |ps| - 1, c) <==> Usable(ps[|ps| - 1]) && PrefixOf(ps[|ps| - 1]) == c
  {
  }

  lemma WantsStep(ps: seq<NetworkPeer>, c: Cidr)
    requires ps != []
    ensures var before, last := ps[..|ps| - 1], ps[|ps| - 1];
            (exists j :: Wants(ps, j, c)) <==>
            (exists j :: Wants(before, j, c)) || (Usable(last) && PrefixOf(last) == c)
  {
    var before := ps[..|ps| - 1];
    WantsBefore(ps, |ps| - 1, c);
    if j :| Wants(before, j, c) {
      WantsBefore(ps, j, c);
    } else if j :| Wants(ps, j, c) {
      WantsBefore(ps, j, c);
    }
  }

  lemma WarmRuns(accepts: Verdict, m: Machine, ps: seq<NetworkPeer>)
    ensures RunLines(accepts, m, WarmLines(ps)).1 && RunLines(accepts, m, WarmLines(ps)).0.net == m.net
    decreases |ps|
  {
  }

  /** The interface after a successful head, given the own address. */
  function Base(virtualIP: string, keyFile: string): Iface {
    NEW_IFACE.(key := if keyFile == "" then None else Some(keyFile),
              addresses := if ParseCidr(virtualIP + "/32").Some? then {ParseCidr(virtualIP + "/32").value} else {})
  }

  /** Deleting what is there and adding afresh forgets any prior state. */
  lemma FreshLink(accepts: Verdict, m: Machine)
    ensures var (m', ok) := RunLines(accepts, m, [Line(LinkDel, false), Line(LinkAdd, true)]);
            && (ok ==> m'.net == Some(NEW_IFACE))
            && (Willing(accepts) ==> ok)
  {
    TwoLines(accepts, m, Line(LinkDel, false), Line(LinkAdd, true));
    OneLine(accepts, m, Line(LinkDel, false));
    OneLine(accepts, Perform(accepts, m, LinkDel).0, Line(LinkAdd, true));
  }

  function KeyLines(keyFile: string): seq<Line> {
    if keyFile == "" then [] else [Line(SetKey(keyFile), true)]
  }

  lemma KeyRuns(accepts: Verdict, m: Machine, keyFile: string)
    requires m.net == Some(NEW_IFACE)
    ensures var (m', ok) := RunLines(accepts, m, KeyLines(keyFile));
            && (ok ==> m'.net == Some(NEW_IFACE.(key := if keyFile == "" then None else Some(keyFile))))
            && (Willing(accepts) ==> ok)
  {
    if keyFile != "" {
      OneLine(accepts, m, Line(SetKey(keyFile), true));
    }
  }

  lemma AddressRuns(accepts: Verdict, m: Machine, virtualIP: string)
    requires m.net.Some? && m.net.value.addresses == {}
    ensures var (m', ok) := RunLines(accepts, m, [Line(AddressAdd(virtualIP + "/32"), true)]);
            var own := ParseCidr(virtualIP + "/32");
            && (ok ==> own.Some? && m'.net == Some(m.net.value.(addresses := {own.value})))
            && (Willing(accepts) && own.Some? ==> ok)
  {
    OneLine(accepts, m, Line(AddressAdd(virtualIP + "/32"), true));
    assert forall c: Cidr :: {} + {c} == {c};
  }

  lemma HeadRuns(accepts: Verdict, m: Machine, virtualIP: string, keyFile: string)
    ensures var (m', ok) := RunLines(accepts, m, Head(virtualIP, keyFile));
            && (ok ==> ParseCidr(virtualIP + "/32").Some? && m'.net == Some(Base(virtualIP, keyFile)))
            && (Willing(accepts) && ParseCidr(virtualIP + "/32").Some? ==> ok)
  {
    var link, addr := [Line(LinkDel, false), Line(LinkAdd, true)], [Line(AddressAdd(virtualIP + "/32"), true)];
    assert Head(virtualIP, keyFile) == link + KeyLines(keyFile) + addr;
    RunLinesConcat(accepts, m, link, KeyLines(keyFile));
    RunLinesConcat(accepts, m, link + KeyLines(keyFile), addr);
    FreshLink(accepts, m);
    var (m1, ok1) := RunLines(accepts, m, link);
    if ok1 {
      KeyRuns(accepts, m1, keyFile);
      var (m2, ok2) := RunLines(accepts, m1, KeyLines(keyFile));
      if ok2 {
        AddressRuns(accepts, m2, virtualIP);
      }
    }
  }

  lemma UpPerforms(accepts: Verdict, m: Machine)
    requires m.net.Some?
    ensures var (m', ok) := Perform(accepts, m, SetMtu(MTU));
            (ok ==> m'.net == Some(m.net.value.(mtu := MTU))) && (Willing(accepts) ==> ok)
    ensures var (m', ok) := Perform(accepts, m, SetUp);
            (ok ==> m'.net == Some(m.net.value.(up := true))) && (Willing(accepts) ==> ok)
  {
  }

  lemma UpRuns(accepts: Verdict, m: Machine)
    requires m.net.Some?
    ensures var (m', ok) := RunLines(accepts, m, UP_LINES);
            && (ok ==> m'.net == Some(m.net.value.(mtu := MTU, up := true)))
            && (Willing(accepts) ==> ok)
  {
    TwoLines(accepts, m, Line(SetMtu(MTU), true), Line(SetUp, true));
    OneLine(accepts, m, Line(SetMtu(MTU), true));
    UpPerforms(accepts, m);
    var (m', ok) := Perform(accepts, m, SetMtu(MTU));
    OneLine(accepts, m', Line(SetUp, true));
    if ok {
      UpPerforms(accepts, m');
    }
  }

  /** Whether the kernel can be given this configuration at all. */
  predicate Configurable(virtualIP: string, ps: seq<NetworkPeer>) {
    ParseCidr(virtualIP + "/32").Some? && AllExact(ps)
  }

  function Final(virtualIP: string, keyFile: string, ps: seq<NetworkPeer>): Iface {
    AfterPeers(Base(virtualIP, keyFile), ps).(mtu := MTU, up := true, routes := Prefixes(Routes(ps)))
  }

  lemma SamePeers(i: Iface, i': Iface, ps: seq<NetworkPeer>)
    requires PeersDenoted(i, ps) && i.peers == i'.peers && i.owner == i'.owner
    ensures PeersDenoted(i', ps)
  {
    forall c, k ensures Owns(i', k, c) <==> Claimed(ps, c, k) {
      assert Owns(i, k, c) <==> Claimed(ps, c, k);
    }
  }

  lemma FinalIsDenoted(virtualIP: string, keyFile: string, ps: seq<NetworkPeer>)
    requires Configurable(virtualIP, ps)
    ensures Denotes(Final(virtualIP, keyFile, ps), virtualIP, keyFile, ps)
  {
    var base := Base(virtualIP, keyFile);
    PeersStep(base, ps);
    SamePeers(AfterPeers(base, ps), Final(virtualIP, keyFile, ps), ps);
    RoutesAreClaims(ps);
  }

  /** What follows the peers' commands. */
  function RestLines(ps: seq<NetworkPeer>): seq<Line> {
    UP_LINES + RouteLines(Routes(ps)) + WarmLines(ps)
  }

  lemma ScriptParts(virtualIP: string, keyFile: string, ps: seq<NetworkPeer>)
    ensures Script(virtualIP, keyFile, ps) == Head(virtualIP, keyFile) + PeersLines(ps) + RestLines(ps)
  {
  }

  lemma RestRuns(accepts: Verdict, m: Machine, ps: seq<NetworkPeer>)
    requires m.net.Some? && m.net.value.routes == {} && AllSingle(ps)
    ensures var (m', ok) := RunLines(accepts, m, RestLines(ps));
            && (ok ==> AllExact(ps)
                       && m'.net == Some(m.net.value.(mtu := MTU, up := true, routes := Prefixes(Routes(ps)))))
            && (Willing(accepts) && AllExact(ps) ==> ok)
  {
    RunLinesConcat(accepts, m, UP_LINES, RouteLines(Routes(ps)));
    RunLinesConcat(accepts, m, UP_LINES + RouteLines(Routes(ps)), WarmLines(ps));
    UpRuns(accepts, m);
    var (m1, ok1) := RunLines(accepts, m, UP_LINES);
    if ok1 {
      RoutesAreClaims(ps);
      RoutesRun(accepts, m1, Routes(ps));
      WarmRuns(accepts, RunLines(accepts, m1, RouteLines(Routes(ps))).0, ps);
      assert {} + Prefixes(Routes(ps)) == Prefixes(Routes(ps));
    }
  }

  lemma HeadAndPeersRun(accepts: Verdict, m: Machine, virtualIP: string, keyFile: string, ps: seq<NetworkPeer>)
    ensures var (m', ok) := RunLines(accepts, m, Head(virtualIP, keyFile) + PeersLines(ps));
            && (ok ==> ParseCidr(virtualIP + "/32").Some? && AllSingle(ps)
                       && m'.net == Some(AfterPeers(Base(virtualIP, keyFile), ps)))
            && (Willing(accepts) && ParseCidr(virtualIP + "/32").Some? && AllSingle(ps) ==> ok)
    ensures AfterPeers(Base(virtualIP, keyFile), ps).routes == {}
  {
    RunLinesConcat(accepts, m, Head(virtualIP, keyFile), PeersLines(ps));
    HeadRuns(accepts, m, virtualIP, keyFile);
    var (m1, ok1) := RunLines(accepts, m, Head(virtualIP, keyFile));
    if ok1 {
      PeersRun(accepts, m1, ps);
    }
    PeersStep(Base(virtualIP, keyFile), ps);
  }

  lemma ScriptRuns(accepts: Verdict, m: Machine, virtualIP: string, keyFile: string, ps: seq<NetworkPeer>)
    ensures var (m', ok) := RunLines(accepts, m, Script(virtualIP, keyFile, ps));
            && (ok ==> Configurable(virtualIP, ps) && m'.net == Some(Final(virtualIP, keyFile, ps)))
            && (Willing(accepts) && Configurable(virtualIP, ps) ==> ok)
  {
    ScriptParts(virtualIP, keyFile, ps);
    RunLinesConcat(accepts, m, Head(virtualIP, keyFile) + PeersLines(ps), RestLines(ps));
    HeadAndPeersRun(accepts, m, virtualIP, keyFile, ps);
    var (m', ok) := RunLines(accepts, m, Head(virtualIP, keyFile) + PeersLines(ps));
    if ok {
      RestRuns(accepts, m', ps);
    }
  }

  /** Command compilation is correct: from any prior state and whatever the outside world does, if the
      agent's list completes, the interface is the one its configuration denotes; and in a world that
      refuses nothing it completes exactly for configurations the kernel can be given. */
  lemma CompilationIsCorrect(accepts: Verdict, m: Machine, virtualIP: string, keyFile: string, peers: seq<NetworkPeer>)
    ensures var ps := Selected(peers); var (m', ok) := RunLines(accepts, m, Script(virtualIP, keyFile, ps));
            && (ok ==> m'.net.Some? && Denotes(m'.net.value, virtualIP, keyFile, ps))
            && (Willing(accepts) ==> (ok <==> Configurable(virtualIP, ps)))
  {
    var ps := Selected(peers);
    ScriptRuns(accepts, m, virtualIP, keyFile, ps);
    if RunLines(accepts, m, Script(virtualIP, keyFile, ps)).1 {
      FinalIsDenoted(virtualIP, keyFile, ps);
    }
  }

  /** Applying a configuration again, or over any other leftover state, changes nothing. */
  lemma ApplyingTwice(accepts: Verdict, m: Machine, m': Machine, virtualIP: string, keyFile: string,
                      peers: seq<NetworkPeer>)
    requires RunLines(accepts, m, Script(virtualIP, keyFile, Selected(peers))).1
    requires RunLines(accepts, m', Script(virtualIP, keyFile, Selected(peers))).1
    ensures RunLines(accepts, m, Script(virtualIP, keyFile, Selected(peers))).0.net
         == RunLines(accepts, m', Script(virtualIP, keyFile, Selected(peers))).0.net
  {
    ScriptRuns(accepts, m, virtualIP, keyFile, Selected(peers));
    ScriptRuns(accepts, m', virtualIP, keyFile, Selected(peers));
  }
}
