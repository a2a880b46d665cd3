/** The three hops of a relayed TCP stream: source application - source agent - controller - target
    agent - target application. Every step below is one system call of one process, with any byte count;
    a run is any list of steps, so every interleaving and every chunking is covered. */
module RelayStream {
  import opened Upgrade

  datatype End = Source | Target {
    function Other(): End {
      if Source? then Target else Source
    }
  }

  /** One direction of a TCP connection: what was accepted from the writer and how much the reader took. */
  datatype AnyLink = Link(sent: Bytes, taken: nat) {
    function Unread(): Bytes
      requires taken <= |sent|
    {
      sent[taken..]
    }

    function Chunk(n: nat): Bytes
      requires taken <= |sent|
    {
      if taken + n <= |sent| then sent[taken..taken + n] else sent[taken..]
    }

    function Take(n: nat): Link
      requires taken <= |sent|
    {
      Link(sent, taken + |Chunk(n)|)
    }

    function Put(data: Bytes): Link
      requires taken <= |sent|
    {
      Link(sent + data, taken)
    }
  }

  type Link = l: AnyLink | l.taken <= |l.sent| witness Link([], 0)

  datatype AgentPhase = Dialing | Requested | Streaming
  datatype ServerPhase = Parsing | Hijacked | Attached

  /** One agent, its connection to the controller, and the controller's end of it. `upHand`, `downHand`
      and `relayHand` are the buffers of the `io.Copy` loops: bytes read and not yet written. */
  datatype Leg = Leg(
    request: Bytes,           // the upgrade request this agent sends
    head: Bytes,              // the response head hijackRelayStream writes
    localIn: Link,            // application to agent
    localOut: Link,           // agent to application
    up: Link,                 // agent to controller
    down: Link,               // controller to agent
    agent: AgentPhase,
    agentBuffer: Bytes,       // the agent's bufio.Reader
    upHand: Bytes,
    downHand: Bytes,
    agentClosed: bool,        // the agent's closeBoth has run
    server: ServerPhase,
    serverBuffer: Bytes,      // the HTTP server's bufio.Reader
    dropped: Bytes,           // what hijackRelayStream lost with that reader
    relayHand: Bytes)         // controller: read from `up`, not yet written to the other leg's `down`

  datatype State = State(source: Leg, target: Leg, paired: bool, relayClosed: bool) {
    function At(e: End): Leg {
      if e.Source? then source else target
    }

    function With(e: End, leg: Leg): State {
      if e.Source? then this.(source := leg) else this.(target := leg)
    }
  }

  const IDLE := Link([], 0)

  function NewLeg(request: Bytes, head: Bytes): Leg {
    Leg(request, head, IDLE, IDLE, IDLE, IDLE, Dialing, [], [], [], false, Parsing, [], [], [])
  }

  /** What the agents ask with and the controller answers with. */
  datatype Handshake = Handshake(sourceRequest: Bytes, targetRequest: Bytes, head: Bytes) {
    /** The requests are not empty and the answer is a head that both agents accept, and no more. */
    ghost predicate Valid() {
      sourceRequest != [] && targetRequest != [] && IsResponseHead(head)
    }
  }

  ghost predicate IsResponseHead(head: Bytes) {
    exists status, headers :: IsHead(status, headers) && head == Response(status, headers, [])
  }

  function Init(h: Handshake): State {
    State(NewLeg(h.sourceRequest, h.head), NewLeg(h.targetRequest, h.head), false, false)
  }

  datatype Step =
    | AppWrite(e: End, data: Bytes)  // the application writes to its local connection
    | AppRead(e: End, n: nat)        // the application reads
    | SendRequest(e: End)            // the agent writes the upgrade request
    | ServerFill(e: End, n: nat)     // the HTTP server reads from the connection into its buffer
    | Hijack(e: End)                 // the request is complete: hijack, and drop that buffer
    | WriteHead(e: End)              // write the 101 response and attach
    | AgentFill(e: End, n: nat)      // the agent reads part of the response into its buffer
    | AgentUpgrade(e: End)           // the response head is complete
    | UpRead(e: End, n: nat)         // proxyConns: read the local connection
    | UpWrite(e: End, n: nat)        // proxyConns: write to the relay connection
    | DownRead(e: End, n: nat)       // proxyConns: read through bufferedConn
    | DownWrite(e: End, n: nat)      // proxyConns: write to the local connection
    | AgentClose(e: End)             // one of proxyConns' copies ended
    | StartPair                      // attach starts proxyTCPRelay
    | RelayRead(e: End, n: nat)      // proxyTCPRelay: read one leg
    | RelayWrite(e: End, n: nat)     // proxyTCPRelay: write what was read to the other leg
    | RelayClose                     // one of proxyTCPRelay's copies ended

  function Cut(hand: Bytes, n: nat): nat {
    if n <= |hand| then n else |hand|
  }

  predicate AgentPumps(l: Leg) {
    l.agent.Streaming? && !l.agentClosed
  }

  /** The effect of a step that touches one leg only. A step that is not enabled does nothing. */
  function ApplyLeg(l: Leg, step: Step): Leg
  {
    match step
    case AppWrite(_, data) => l.(localIn := l.localIn.Put(data))
    case AppRead(_, n) => l.(localOut := l.localOut.Take(n))
    case SendRequest(_) => if l.agent.Dialing? then l.(agent := Requested, up := l.up.Put(l.request)) else l
    case ServerFill(_, n) =>
      if l.server.Parsing? then l.(serverBuffer := l.serverBuffer + l.up.Chunk(n), up := l.up.Take(n)) else l
    case Hijack(_) =>
      if l.server.Parsing? && l.request <= l.serverBuffer then
        l.(server := Hijacked, dropped := l.serverBuffer[|l.request|..], serverBuffer := [])
      else l
    case WriteHead(_) => if l.server.Hijacked? then l.(server := Attached, down := l.down.Put(l.head)) else l
    case AgentFill(_, n) =>
      if l.agent.Requested? then l.(agentBuffer := l.agentBuffer + l.down.Chunk(n), down := l.down.Take(n)) else l
    case AgentUpgrade(_) =>
      if l.agent.Requested? && Dial(l.agentBuffer).Upgraded? then
        l.(agent := Streaming, agentBuffer := Dial(l.agentBuffer).payload)
      else l
    case UpRead(_, n) =>
      if AgentPumps(l) && l.upHand == [] then l.(upHand := l.localIn.Chunk(n), localIn := l.localIn.Take(n)) else l
    case UpWrite(_, n) =>
      if AgentPumps(l) then l.(up := l.up.Put(l.upHand[..Cut(l.upHand, n)]), upHand := l.upHand[Cut(l.upHand, n)..])
          else l
    case DownRead(_, n) =>
      if !AgentPumps(l) || l.downHand != [] then l
      else if l.agentBuffer != [] then
        l.(downHand := l.agentBuffer[..Cut(l.agentBuffer, n)], agentBuffer := l.agentBuffer[Cut(l.agentBuffer, n)..])
      else l.(downHand := l.down.Chunk(n), down := l.down.Take(n))
    case DownWrite(_, n) =>
      if AgentPumps(l) then
        l.(localOut := l.localOut.Put(l.downHand[..Cut(l.downHand, n)]), downHand := l.downHand[Cut(l.downHand, n)..])
      else l
    case AgentClose(_) => if l.agent.Streaming? then l.(agentClosed := true) else l
    case RelayRead(_, n) =>
      if l.relayHand == [] then l.(relayHand := l.up.Chunk(n), up := l.up.Take(n)) else l
    case _ => l
  }

  function Apply(s: State, step: Step): State
  {
    match step
    case StartPair => if s.source.server.Attached? && s.target.server.Attached? then s.(paired := true) else s
    case RelayClose => s.(relayClosed := s.paired)
    case RelayRead(e, n) => if s.paired && !s.relayClosed then s.With(e, ApplyLeg(s.At(e), step)) else s
    case RelayWrite(e, n) =>
      if !s.paired || s.relayClosed then s
      else
        var from, to := s.At(e), s.At(e.Other());
        var k := Cut(from.relayHand, n);
        var from' := from.(relayHand := from.relayHand[k..]);
        s.With(e, from').With(e.Other(), to.(down := to.down.Put(from.relayHand[..k])))
    case _ => s.With(step.e, ApplyLeg(s.At(step.e), step))
  }

  // ---------------------------------------------------------------- the response head

  lemma HeadUpgrades(head: Bytes, payload: Bytes)
    requires IsResponseHead(head)
    ensures Dial(head + payload) == Upgraded(payload)
  {
    var status, headers :| IsHead(status, headers) && head == Response(status, headers, []);
    ResponseThenMore(status, headers, [], payload);
    assert [] + payload == payload;
    UpgradesExactly(head + payload, payload);
  }

  /** The agent takes the response for complete exactly when it holds the whole head, and keeps the rest. */
  lemma HeadIsComplete(head: Bytes, seen: Bytes, rest: Bytes, payload: Bytes)
    requires IsResponseHead(head) && seen + rest == head + payload && Dial(seen).Upgraded?
    ensures |head| <= |seen| && head + Dial(seen).payload == seen
  {
    var p := Dial(seen).payload;
    MoreBytes(seen, rest);
    HeadUpgrades(head, payload);
    assert p + rest == payload;
    Regroup(head, p, rest);
    assert seen == (seen + rest)[..|seen|];
    assert head + p == ((head + p) + rest)[..|head + p|];
  }

  const STATUS_LINE: Bytes := "HTTP/1.1 101 Switching Protocols\r\n"
  const CONNECTION_LINE: Bytes := "Connection: Upgrade\r\n"
  const UPGRADE_LINE: Bytes := "Upgrade: linkbit-relay\r\n"

  /** The bytes `hijackRelayStream` writes are such a head. */
  lemma ControllerHead()
    ensures IsResponseHead(STATUS_LINE + (CONNECTION_LINE + (UPGRADE_LINE + CRLF)))
  {
    var headers := [CONNECTION_LINE, UPGRADE_LINE];
    assert Has101At(STATUS_LINE, 9);
    MentionsExactly(STATUS_LINE);
    assert IsHead(STATUS_LINE, headers);
    assert headers[1..] == [UPGRADE_LINE] && [UPGRADE_LINE][1..] == [];
    assert CRLF + [] == CRLF;
    assert Lines([UPGRADE_LINE], CRLF) == UPGRADE_LINE + CRLF;
    assert Response(STATUS_LINE, headers, []) == STATUS_LINE + (CONNECTION_LINE + (UPGRADE_LINE + CRLF));
  }

  // ---------------------------------------------------------------- the invariant

  /** Payload the agent has put on the relay connection, after its request. */
  function UpPayload(l: Leg): Bytes {
    if |l.request| <= |l.up.sent| then l.up.sent[|l.request|..] else []
  }

  /** Payload the controller's pump has taken from this leg. */
  function RelayTaken(l: Leg): Bytes {
    if |l.request| <= l.up.taken <= |l.up.sent| then l.up.sent[|l.request|..l.up.taken] else []
  }

  /** Payload the controller has put on this leg, after the response head. */
  function DownPayload(l: Leg): Bytes {
    if |l.head| <= |l.down.sent| then l.down.sent[|l.head|..] else []
  }

  /** Payload the agent has read behind the head: written locally, in its hand, or still buffered. */
  function Pumped(l: Leg): Bytes {
    l.localOut.sent + (l.downHand + l.agentBuffer)
  }

  predicate UpInv(l: Leg)
  {
    && l.request != []
    && (l.agent.Dialing? ==> l.up.sent == [])
    && (!l.agent.Dialing? ==> l.request <= l.up.sent)
    && UpPayload(l) + l.upHand == l.localIn.sent[..l.localIn.taken]
    && (!l.agent.Streaming? ==> l.localIn.taken == 0)
  }

  predicate ServerInv(l: Leg)
  {
    && l.dropped == []
    && (l.server.Parsing? ==> l.serverBuffer == l.up.sent[..l.up.taken] && l.relayHand == [])
    && (!l.server.Parsing? ==> !l.agent.Dialing? && |l.request| <= l.up.taken)
    && (l.server.Attached? ==> l.head <= l.down.sent)
    && (!l.server.Attached? ==> l.down.sent == [])
  }

  predicate DownInv(l: Leg)
  {
    && (l.agent.Dialing? ==> l.down.taken == 0 && l.agentBuffer == [])
    && (l.agent.Requested? ==> l.agentBuffer == l.down.sent[..l.down.taken])
    && (!l.agent.Streaming? ==> l.downHand == [] && l.localOut.sent == [])
    && (l.agent.Streaming? ==>
          l.server.Attached? && l.head + Pumped(l) == l.down.sent[..l.down.taken])
  }

  predicate LegInv(l: Leg) {
    UpInv(l) && ServerInv(l) && DownInv(l)
  }

  /** What the controller took from one leg is what it put on the other, and what it still holds. */
  predicate Crossed(from: Leg, to: Leg, paired: bool) {
    RelayTaken(from) == DownPayload(to) + from.relayHand
    && (!paired && !from.server.Parsing? ==> from.up.taken == |from.request|)
  }

  predicate Inv(s: State) {
    && LegInv(s.source) && LegInv(s.target)
    && Crossed(s.source, s.target, s.paired) && Crossed(s.target, s.source, s.paired)
    && (s.paired ==> s.source.server.Attached? && s.target.server.Attached?)
  }

  // Sequence algebra for the steps below.

  lemma TakeMovesOn(l: Link, n: nat)
    ensures l.Take(n).sent == l.sent
    ensures l.taken <= l.Take(n).taken && l.sent[..l.Take(n).taken] == l.sent[..l.taken] + l.Chunk(n)
  {
  }

  lemma TakeFrom(l: Link, n: nat, from: nat)
    requires from <= l.taken
    ensures l.taken <= l.Take(n).taken && l.sent[from..l.Take(n).taken] == l.sent[from..l.taken] + l.Chunk(n)
  {
  }

  lemma PutKeepsPrefixes(l: Link, data: Bytes, from: nat)
    ensures l.Put(data).sent[..l.taken] == l.sent[..l.taken]
    ensures from <= l.taken ==> l.Put(data).sent[from..l.taken] == l.sent[from..l.taken]
    ensures from <= |l.sent| ==> l.Put(data).sent[from..] == l.sent[from..] + data
  {
  }

  lemma HandOver(done: Bytes, hand: Bytes, rest: Bytes, n: nat)
    ensures (done + hand[..Cut(hand, n)]) + (hand[Cut(hand, n)..] + rest) == done + (hand + rest)
    ensures (done + hand[..Cut(hand, n)]) + hand[Cut(hand, n)..] == done + hand
  {
  }

  lemma PickUp(head: Bytes, out: Bytes, chunk: Bytes)
    ensures head + (out + (chunk + [])) == (head + (out + ([] + []))) + chunk
  {
  }

  /** What the other leg and the controller's pump can see of a leg is left alone. */
  predicate SameOutside(l: Leg, m: Leg) {
    && RelayTaken(m) == RelayTaken(l) && DownPayload(m) == DownPayload(l) && m.relayHand == l.relayHand
    && (l.server.Attached? ==> m.server.Attached?)
    && (!m.server.Parsing? && (!l.server.Parsing? ==> l.up.taken == |l.request|) ==> m.up.taken == |m.request|)
  }

  lemma AppSteps(l: Leg, step: Step)
    requires LegInv(l) && (step.AppWrite? || step.AppRead?)
    ensures LegInv(ApplyLeg(l, step)) && SameOutside(l, ApplyLeg(l, step))
  {
    if step.AppWrite? {
      PutKeepsPrefixes(l.localIn, step.data, 0);
    } else {
      TakeMovesOn(l.localOut, step.n);
    }
  }

  lemma UpReadStep(l: Leg, e: End, n: nat)
    requires LegInv(l)
    ensures LegInv(ApplyLeg(l, UpRead(e, n))) && SameOutside(l, ApplyLeg(l, UpRead(e, n)))
  {
    TakeMovesOn(l.localIn, n);
  }

  lemma UpWriteStep(l: Leg, e: End, n: nat)
    requires LegInv(l)
    ensures LegInv(ApplyLeg(l, UpWrite(e, n))) && SameOutside(l, ApplyLeg(l, UpWrite(e, n)))
  {
    PutKeepsPrefixes(l.up, l.upHand[..Cut(l.upHand, n)], |l.request|);
    HandOver(UpPayload(l), l.upHand, [], n);
  }

  /** The buffer dropped at the hijack is empty: while the server parses, the agent has written its
      request and nothing else, because it only pumps after it has read the 101. */
  lemma ServerSteps(l: Leg, step: Step)
    requires LegInv(l)
    requires step.SendRequest? || step.ServerFill? || step.Hijack? || step.WriteHead?
    ensures LegInv(ApplyLeg(l, step)) && SameOutside(l, ApplyLeg(l, step))
  {
    if l.server.Parsing? && !l.agent.Dialing? {
      assert UpPayload(l) == [];
      assert l.up.sent == l.request;
    }
    if step.ServerFill? {
      TakeMovesOn(l.up, step.n);
    }
  }

  lemma AgentFillStep(l: Leg, e: End, n: nat)
    requires LegInv(l)
    ensures LegInv(ApplyLeg(l, AgentFill(e, n))) && SameOutside(l, ApplyLeg(l, AgentFill(e, n)))
  {
    TakeMovesOn(l.down, n);
  }

  lemma DownReadStep(l: Leg, e: End, n: nat)
    requires LegInv(l)
    ensures LegInv(ApplyLeg(l, DownRead(e, n))) && SameOutside(l, ApplyLeg(l, DownRead(e, n)))
  {
    if AgentPumps(l) && l.downHand == [] {
      if l.agentBuffer != [] {
        HandOver([], l.agentBuffer, [], n);
        assert [] + l.agentBuffer[..Cut(l.agentBuffer, n)] == l.agentBuffer[..Cut(l.agentBuffer, n)];
      } else {
        TakeMovesOn(l.down, n);
        PickUp(l.head, l.localOut.sent, l.down.Chunk(n));
      }
    }
  }

  lemma DownWriteStep(l: Leg, e: End, n: nat)
    requires LegInv(l)
    ensures LegInv(ApplyLeg(l, DownWrite(e, n))) && SameOutside(l, ApplyLeg(l, DownWrite(e, n)))
  {
    PutKeepsPrefixes(l.localOut, l.downHand[..Cut(l.downHand, n)], 0);
    HandOver(l.localOut.sent, l.downHand, l.agentBuffer, n);
  }

  lemma NothingIsNoHead()
    ensures Dial([]) == Truncated
  {
  }

  lemma WholeLink(l: Link, head: Bytes)
    ensures l.sent[..l.taken] + l.Unread() == l.sent
    ensures head <= l.sent ==> head + l.sent[|head|..] == l.sent
  {
  }

  /** At the agent's upgrade the whole head has arrived, and what follows it stays in the buffer. */
  lemma BufferedHead(l: Leg)
    requires DownInv(l) && ServerInv(l) && IsResponseHead(l.head) && l.agent.Requested? && Dial(l.agentBuffer).Upgraded?
    ensures l.server.Attached? && l.head + Dial(l.agentBuffer).payload == l.agentBuffer
  {
    NothingIsNoHead();
    WholeLink(l.down, l.head);
    HeadIsComplete(l.head, l.agentBuffer, l.down.Unread(), DownPayload(l));
  }

  lemma UpgradedDown(l: Leg)
    requires DownInv(l) && l.agent.Requested? && l.server.Attached? && Dial(l.agentBuffer).Upgraded?
    requires l.head + Dial(l.agentBuffer).payload == l.agentBuffer
    ensures DownInv(l.(agent := Streaming, agentBuffer := Dial(l.agentBuffer).payload))
  {
    var m := l.(agent := Streaming, agentBuffer := Dial(l.agentBuffer).payload);
    assert Pumped(m) == m.agentBuffer;
  }

  lemma UpgradeStep(l: Leg, e: End)
    requires LegInv(l) && IsResponseHead(l.head)
    ensures LegInv(ApplyLeg(l, AgentUpgrade(e))) && SameOutside(l, ApplyLeg(l, AgentUpgrade(e)))
  {
    if l.agent.Requested? && Dial(l.agentBuffer).Upgraded? {
      BufferedHead(l);
      UpgradedDown(l);
    }
  }

  /** The steps of one agent, its applications and its HTTP handler. */
  lemma LegStep(l: Leg, step: Step)
    requires LegInv(l) && IsResponseHead(l.head)
    requires OfOneLeg(step)
    ensures LegInv(ApplyLeg(l, step)) && SameOutside(l, ApplyLeg(l, step))
  {
    match step
    case AppWrite(_, _) => AppSteps(l, step);
    case AppRead(_, _) => AppSteps(l, step);
    case AgentFill(e, n) => AgentFillStep(l, e, n);
    case AgentUpgrade(e) => UpgradeStep(l, e);
    case UpRead(e, n) => UpReadStep(l, e, n);
    case UpWrite(e, n) => UpWriteStep(l, e, n);
    case DownRead(e, n) => DownReadStep(l, e, n);
    case DownWrite(e, n) => DownWriteStep(l, e, n);
    case AgentClose(_) =>
    case _ => ServerSteps(l, step);
  }

  lemma RelayReadLeg(l: Leg, e: End, n: nat)
    requires LegInv(l) && l.server.Attached? && l.relayHand == []
    ensures var m := ApplyLeg(l, RelayRead(e, n));
            LegInv(m) && RelayTaken(m) == RelayTaken(l) + m.relayHand && DownPayload(m) == DownPayload(l)
  {
    TakeFrom(l.up, n, |l.request|);
  }

  lemma RelayWriteLeg(l: Leg, data: Bytes)
    requires LegInv(l) && l.server.Attached?
    ensures var m := l.(down := l.down.Put(data));
            LegInv(m) && RelayTaken(m) == RelayTaken(l) && DownPayload(m) == DownPayload(l) + data
  {
    PutKeepsPrefixes(l.down, data, |l.head|);
  }

  lemma ReplaceLeg(s: State, e: End, m: Leg)
    requires Inv(s) && LegInv(m) && SameOutside(s.At(e), m)
    ensures Inv(s.With(e, m))
  {
  }

  lemma RelayReadStep(s: State, e: End, n: nat)
    requires Inv(s)
    ensures Inv(Apply(s, RelayRead(e, n)))
  {
    var from, to := s.At(e), s.At(e.Other());
    if s.paired && !s.relayClosed && from.relayHand == [] {
      RelayReadLeg(from, e, n);
      assert DownPayload(to) + [] == DownPayload(to);
    }
  }

  /** The pair's two legs with `data` moved from the controller's hand to the other leg. */
  lemma RelayWriteLegs(from: Leg, to: Leg, n: nat)
    requires LegInv(from) && LegInv(to) && from.server.Attached? && to.server.Attached?
    requires Crossed(from, to, true) && Crossed(to, from, true)
    ensures var k := Cut(from.relayHand, n);
            var from', to' := from.(relayHand := from.relayHand[k..]), to.(down := to.down.Put(from.relayHand[..k]));
            LegInv(from') && LegInv(to') && Crossed(from', to', true) && Crossed(to', from', true)
  {
    RelayWriteLeg(to, from.relayHand[..Cut(from.relayHand, n)]);
    HandOver(DownPayload(to), from.relayHand, [], n);
  }

  lemma RelayWriteStep(s: State, e: End, n: nat)
    requires Inv(s)
    ensures Inv(Apply(s, RelayWrite(e, n)))
  {
    if s.paired && !s.relayClosed {
      RelayWriteLegs(s.At(e), s.At(e.Other()), n);
    }
  }

  predicate OfOneLeg(step: Step) {
    !step.StartPair? && !step.RelayRead? && !step.RelayWrite? && !step.RelayClose?
  }

  lemma ApplyToLeg(s: State, step: Step)
    requires OfOneLeg(step)
    ensures Apply(s, step) == s.With(step.e, ApplyLeg(s.At(step.e), step))
  {
  }

  lemma StepKeepsInv(s: State, step: Step)
    requires Inv(s) && IsResponseHead(s.source.head) && IsResponseHead(s.target.head)
    ensures Inv(Apply(s, step))
  {
    if OfOneLeg(step) {
      LegStep(s.At(step.e), step);
      ReplaceLeg(s, step.e, ApplyLeg(s.At(step.e), step));
      ApplyToLeg(s, step);
    } else if step.RelayRead? {
      RelayReadStep(s, step.e, step.n);
    } else if step.RelayWrite? {
      RelayWriteStep(s, step.e, step.n);
    }
  }

  // ---------------------------------------------------------------- whole runs

  /** Any interleaving of the three processes and the two applications. */
  function Run(h: Handshake, steps: seq<Step>): State {
    if steps == [] then Init(h)
    else Apply(Run(h, steps[..|steps| - 1]), steps[|steps| - 1])
  }

  lemma InitInv(h: Handshake)
    requires h.Valid()
    ensures Inv(Init(h))
  {
    var l := NewLeg(h.sourceRequest, h.head);
    assert LegInv(l);
    assert LegInv(NewLeg(h.targetRequest, h.head));
  }

  lemma HeadStays(l: Leg, step: Step)
    ensures ApplyLeg(l, step).head == l.head
  {
  }

  lemma HeadsStay(s: State, step: Step)
    ensures Apply(s, step).source.head == s.source.head && Apply(s, step).target.head == s.target.head
  {
    if OfOneLeg(step) {
      ApplyToLeg(s, step);
      HeadStays(s.At(step.e), step);
    }
  }

  lemma {:induction false} RunKeepsInv(h: Handshake, steps: seq<Step>)
    requires h.Valid()
    ensures Inv(Run(h, steps)) && Run(h, steps).source.head == Run(h, steps).target.head == h.head
  {
    if steps == [] {
      InitInv(h);
    } else {
      var n := |steps| - 1;
      RunKeepsInv(h, steps[..n]);
      StepKeepsInv(Run(h, steps[..n]), steps[n]);
      HeadsStay(Run(h, steps[..n]), steps[n]);
    }
  }

  /** Everything the application at an end has written so far. */
  function Written(s: State, e: End): Bytes {
    s.At(e).localIn.sent
  }

  /** Everything the application at an end has read so far. */
  function Delivered(s: State, e: End): Bytes
  {
    s.At(e).localOut.sent[..s.At(e).localOut.taken]
  }

  /** Bytes of the controller's response to an end that its agent has not pumped yet, head removed. */
  function DownInFlight(l: Leg): Bytes
  {
    var bytes := l.agentBuffer + l.down.Unread();
    if l.agent.Streaming? then bytes else if |l.head| <= |bytes| then bytes[|l.head|..] else []
  }

  /** Payload on its way up that the controller has not taken yet. */
  function UpInFlight(l: Leg): Bytes {
    (if l.server.Parsing? then [] else l.up.Unread()) + (l.upHand + l.localIn.Unread())
  }

  /** Every byte between the two applications, the one closest to the reader first. */
  function InFlight(s: State, e: End): Bytes {
    var from, to := s.At(e), s.At(e.Other());
    to.localOut.Unread() + to.downHand + DownInFlight(to) + from.relayHand + UpInFlight(from)
  }

  lemma DownSplits(l: Leg)
    requires LegInv(l)
    ensures DownPayload(l) == l.localOut.sent + l.downHand + DownInFlight(l)
  {
    if l.agent.Streaming? {
      assert l.down.sent == l.down.sent[..l.down.taken] + l.down.Unread();
      Regroup(l.head, Pumped(l), l.down.Unread());
      assert DownPayload(l) == Pumped(l) + l.down.Unread();
      Regroup(l.localOut.sent, l.downHand + l.agentBuffer, l.down.Unread());
      Regroup(l.downHand, l.agentBuffer, l.down.Unread());
      Regroup(l.localOut.sent, l.downHand, l.agentBuffer + l.down.Unread());
    } else {
      assert l.agentBuffer + l.down.Unread() == l.down.sent;
    }
  }

  lemma UpSplits(l: Leg)
    requires LegInv(l)
    ensures l.localIn.sent == RelayTaken(l) + UpInFlight(l)
  {
    var unread := if l.server.Parsing? then [] else l.up.Unread();
    if l.server.Parsing? {
      assert UpPayload(l) == [] && RelayTaken(l) == [];
    }
    assert UpPayload(l) == RelayTaken(l) + unread;
    assert l.localIn.sent == l.localIn.sent[..l.localIn.taken] + l.localIn.Unread();
    Regroup(RelayTaken(l) + unread, l.upHand, l.localIn.Unread());
    Regroup(RelayTaken(l), unread, l.upHand + l.localIn.Unread());
  }

  lemma Telescope(a: Bytes, b: Bytes, c: Bytes, d: Bytes, e: Bytes, f: Bytes)
    ensures ((a + b) + c + d) + e + f == a + (b + c + d + e + f)
  {
  }

  lemma Conserved(s: State, e: End)
    requires Inv(s)
    ensures Written(s, e) == Delivered(s, e.Other()) + InFlight(s, e)
  {
    var from, to := s.At(e), s.At(e.Other());
    UpSplits(from);
    DownSplits(to);
    assert to.localOut.sent == Delivered(s, e.Other()) + to.localOut.Unread();
    Telescope(Delivered(s, e.Other()), to.localOut.Unread(), to.downHand, DownInFlight(to), from.relayHand,
              UpInFlight(from));
  }

  /** End-to-end conservation: at every moment of every run, in both directions, what was written at one
      end is exactly what was delivered at the other followed by what is still in flight. */
  lemma StreamConservation(h: Handshake, steps: seq<Step>, e: End)
    requires h.Valid()
    ensures var s := Run(h, steps); Written(s, e) == Delivered(s, e.Other()) + InFlight(s, e)
  {
    RunKeepsInv(h, steps);
    Conserved(Run(h, steps), e);
  }

  /** End-to-end fidelity: bytes delivered at one end are always a prefix of the bytes written at the
      other - none lost, repeated, reordered or invented - and once nothing is in flight they are equal. */
  lemma StreamFidelity(h: Handshake, steps: seq<Step>, e: End)
    requires h.Valid()
    ensures var s := Run(h, steps);
            && Delivered(s, e.Other()) <= Written(s, e)
            && (InFlight(s, e) == [] <==> Delivered(s, e.Other()) == Written(s, e))
  {
    StreamConservation(h, steps, e);
    var s := Run(h, steps);
    assert |Written(s, e)| == |Delivered(s, e.Other())| + |InFlight(s, e)|;
  }

  /** Nothing is lost with the server-side read buffer that the hijack drops. */
  lemma NothingDropped(h: Handshake, steps: seq<Step>, e: End)
    requires h.Valid()
    ensures Run(h, steps).At(e).dropped == []
  {
    RunKeepsInv(h, steps);
  }
}
