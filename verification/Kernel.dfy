/** The commands Linkbit issues about its WireGuard interface, and a small model of the kernel they
    configure: link state, addresses, routes through the interface, and the cryptokey table, in which
    every prefix is owned by one peer at a time. */
module Kernel {
  import opened Wrappers
  import opened Addresses

  datatype Command =
    | LinkDel                                       // ip link del
    | LinkAdd                                       // ip link add type wireguard
    | SetKey(file: string)                          // wg set private-key
    | SetKeyAndPort(file: string, port: int)        // wg set private-key listen-port
    | AddressAdd(cidr: string)                      // ip address add
    | AddressReplace(cidr: string)                  // ip address replace
    | SetPeer(key: string, allowed: seq<string>)    // wg set peer allowed-ips
    | SetEndpoint(key: string, endpoint: string)    // wg set peer endpoint
    | SetKeepalive(key: string, seconds: nat)       // wg set peer persistent-keepalive
    | SetMtu(mtu: nat)                              // ip link set mtu
    | SetUp                                         // ip link set up
    | RouteReplace(cidr: string)                    // ip route replace
    | Ping(ip: string)
    | EnableForwarding                              // sysctl net.ipv4.ip_forward=1

  datatype Peer = Peer(endpoint: Option<string>, keepalive: nat)

  datatype Iface = Iface(
    key: Option<string>,
    port: Option<int>,
    addresses: set<Cidr>,
    peers: map<string, Peer>,
    owner: map<Cidr, string>,
    mtu: nat,
    up: bool,
    routes: set<Cidr>)

  const NEW_IFACE := Iface(None, None, {}, map[], map[], 1420, false, {})

  /** The interface, if it exists. */
  type Net = Option<Iface>

  /** The prefix a command argument names, as the kernel stores it. */
  function Prefix(cidr: string): Option<Cidr> {
    if ParseCidr(cidr).None? then None else Some(Masked(ParseCidr(cidr).value))
  }

  /** A route's prefix must have no host bits; `wg` clears them, `ip route` refuses them. */
  function Route(cidr: string): Option<Cidr> {
    if ParseCidr(cidr).None? || Masked(ParseCidr(cidr).value) != ParseCidr(cidr).value then None else ParseCidr(cidr)
  }

  /** `wg set ... allowed-ips`: the prefix leaves its former owner, and the peer loses its other ones. */
  function GivePrefix(i: Iface, key: string, c: Cidr): Iface {
    i.(peers := i.peers[key := PeerAt(i, key)],
       owner := (map d | d in i.owner && i.owner[d] != key :: i.owner[d])[c := key])
  }

  function PeerAt(i: Iface, key: string): Peer {
    if key in i.peers then i.peers[key] else Peer(None, 0)
  }

  /** What a command does to an existing interface; `None` if the kernel or the tool refuses it. `wg` takes
      one argument after `allowed-ips`, so a list of several is a syntax error. */
  function Configure(command: Command, i: Iface): Option<Iface> {
    match command
    case LinkDel => None
    case LinkAdd => None
    case SetKey(file) => Some(i.(key := Some(file)))
    case SetKeyAndPort(file, port) => Some(i.(key := Some(file), port := Some(port)))
    case AddressAdd(cidr) =>
      if ParseCidr(cidr).None? || ParseCidr(cidr).value in i.addresses then None
      else Some(i.(addresses := i.addresses + {ParseCidr(cidr).value}))
    case AddressReplace(cidr) =>
      if ParseCidr(cidr).None? then None else Some(i.(addresses := i.addresses + {ParseCidr(cidr).value}))
    case SetPeer(key, allowed) =>
      if |allowed| != 1 || Prefix(allowed[0]).None? then None else Some(GivePrefix(i, key, Prefix(allowed[0]).value))
    case SetEndpoint(key, endpoint) => Some(i.(peers := i.peers[key := PeerAt(i, key).(endpoint := Some(endpoint))]))
    case SetKeepalive(key, seconds) => Some(i.(peers := i.peers[key := PeerAt(i, key).(keepalive := seconds)]))
    case SetMtu(mtu) => Some(i.(mtu := mtu))
    case SetUp => Some(i.(up := true))
    case RouteReplace(cidr) =>
      if Route(cidr).None? || !i.up then None else Some(i.(routes := i.routes + {Route(cidr).value}))
    case Ping(_) => Some(i)
    case EnableForwarding => Some(i)
  }

  function Effect(command: Command, net: Net): Option<Net> {
    if command.LinkDel? then if net.Some? then Some(None) else None
    else if command.LinkAdd? then if net.None? then Some(Some(NEW_IFACE)) else None
    else if command.Ping? || command.EnableForwarding? then Some(net)
    else if net.None? || Configure(command, net.value).None? then None
    else Some(Configure(command, net.value))
  }

  /** Whether the outside world lets a command through, given everything issued before it. */
  type Verdict = (seq<Command>, Command) -> bool

  /** `ipForward`: the host passes packets on from one interface, or one peer, to another. */
  datatype Machine = Machine(net: Net, ipForward: bool, issued: seq<Command>)

  function Perform(accepts: Verdict, m: Machine, command: Command): (Machine, bool) {
    var issued := m.issued + [command];
    if accepts(m.issued, command) && Effect(command, m.net).Some? then
      (Machine(Effect(command, m.net).value, m.ipForward || command.EnableForwarding?, issued), true)
    else
      (Machine(m.net, m.ipForward, issued), false)
  }

  /** A command and whether its failure aborts the list. */
  datatype Line = Line(command: Command, checked: bool)

  function Must(commands: seq<Command>): seq<Line> {
    seq(|commands|, i requires 0 <= i < |commands| => Line(commands[i], true))
  }

  function RunLines(accepts: Verdict, m: Machine, lines: seq<Line>): (Machine, bool)
    decreases |lines|
  {
    if lines == [] then (m, true)
    else
      var (m', ok) := Perform(accepts, m, lines[0].command);
      if !ok && lines[0].checked then (m', false) else RunLines(accepts, m', lines[1..])
  }

  lemma {:induction false} RunLinesConcat(accepts: Verdict, m: Machine, a: seq<Line>, b: seq<Line>)
    ensures RunLines(accepts, m, a + b) ==
            var (m', ok) := RunLines(accepts, m, a); if ok then RunLines(accepts, m', b) else (m', false)
    decreases |a|
  {
    if a == [] {
      assert a + b == b;
    } else {
      assert (a + b)[1..] == a[1..] + b;
      RunLinesConcat(accepts, Perform(accepts, m, a[0].command).0, a[1..], b);
    }
  }

  function Commands(lines: seq<Line>): seq<Command> {
    seq(|lines|, i requires 0 <= i < |lines| => lines[i].command)
  }

  lemma CommandsConcat(a: seq<Line>, b: seq<Line>)
    ensures Commands(a + b) == Commands(a) + Commands(b)
  {
  }

  /** If a checked command fails, what was issued is exactly the list through that command; otherwise it
      is the whole list. Unchecked commands never abort. */
  lemma {:induction false} StopsAtFirstFailure(accepts: Verdict, m: Machine, lines: seq<Line>) returns (n: nat)
    ensures n <= |lines|
    ensures var (m', ok) := RunLines(accepts, m, lines);
            && m'.issued == m.issued + Commands(lines[..n])
            && (ok ==> n == |lines|)
            && (!ok ==> n > 0 && lines[n - 1].checked && RunLines(accepts, m, lines[..n - 1]).1
                        && Perform(accepts, RunLines(accepts, m, lines[..n - 1]).0, lines[n - 1].command) ==
                           (m', false))
    decreases |lines|
  {
    if lines == [] {
      n := 0;
      assert m.issued + [] == m.issued;
    } else {
      var (m', ok) := Perform(accepts, m, lines[0].command);
      if !ok && lines[0].checked {
        n := 1;
        assert Commands(lines[..1]) == [lines[0].command];
      } else {
        var k := StopsAtFirstFailure(accepts, m', lines[1..]);
        n := k + 1;
        assert Commands(lines[..n]) == [lines[0].command] + Commands(lines[1..][..k]);
        if !RunLines(accepts, m, lines).1 {
          assert lines[..n - 1][1..] == lines[1..][..k - 1];
        }
      }
    }
  }

  /** A list that completes was issued whole. */
  lemma AllIssued(accepts: Verdict, m: Machine, lines: seq<Line>)
    requires RunLines(accepts, m, lines).1
    ensures RunLines(accepts, m, lines).0.issued == m.issued + Commands(lines)
  {
    var n := StopsAtFirstFailure(accepts, m, lines);
    assert lines[..n] == lines;
  }

  /** The shell: runs commands one by one against the kernel. */
  class CommandRunner {
    const accepts: Verdict
    var net: Net
    var ipForward: bool
    var issued: seq<Command>

    ghost function State(): Machine
      reads this
    {
      Machine(net, ipForward, issued)
    }

    method Run(command: Command) returns (ok: bool)
      modifies this
      ensures (State(), ok) == Perform(accepts, old(State()), command)
    {
      ok := accepts(issued, command) && Effect(command, net).Some?;
      if ok {
        net, ipForward := Effect(command, net).value, ipForward || command.EnableForwarding?;
      }
      issued := issued + [command];
    }
  }

  /** Nothing but the sysctl changes whether the host passes packets on. */
  lemma {:induction false} ForwardingStays(accepts: Verdict, m: Machine, lines: seq<Line>)
    requires forall line :: line in lines ==> line.command != EnableForwarding
    ensures RunLines(accepts, m, lines).0.ipForward == m.ipForward
    decreases |lines|
  {
    if lines != [] {
      var (m', ok) := Perform(accepts, m, lines[0].command);
      assert lines[0] in lines;
      if ok || !lines[0].checked {
        ForwardingStays(accepts, m', lines[1..]);
      }
    }
  }

  // ---------------------------------------------------------------- where packets go

  /** The most specific prefix of the cryptokey table that covers the address belongs to this peer. */
  ghost predicate SendsTo(i: Iface, ip: Ip, key: string) {
    exists c :: c in i.owner && Contains(c, ip) && i.owner[c] == key
                && forall d :: d in i.owner && Contains(d, ip) && d != c ==> d.bits < c.bits
  }

  /** The address is routed into the interface: by an explicit route or by a connected prefix. */
  ghost predicate Routed(i: Iface, ip: Ip) {
    && i.up && (forall a :: a in i.addresses ==> a.base != ip)
    && ((exists c :: c in i.routes && Contains(c, ip)) || (exists a :: a in i.addresses && Contains(a, ip)))
  }

  /** Packets for the address leave through the interface, encrypted to this peer. */
  ghost predicate Forwards(net: Net, ip: Ip, key: string) {
    net.Some? && Routed(net.value, ip) && SendsTo(net.value, ip, key)
  }

  /** Packets for the address that come in from one peer go out again to this one. */
  ghost predicate Relays(m: Machine, ip: Ip, key: string) {
    m.ipForward && Forwards(m.net, ip, key)
  }

  /** There is at most one such peer. */
  lemma ForwardsToOne(net: Net, ip: Ip, k: string, l: string)
    requires Forwards(net, ip, k) && Forwards(net, ip, l)
    ensures k == l
  {
  }
}
