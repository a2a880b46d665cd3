/** The state of `TCPRelayBroker` and each of its critical sections as one atomic step.
    A connection is an identity; closing one, starting a proxy pair and closing a wake
    channel are recorded in the state, so that whole runs can be reasoned about. */
module Broker {
  import opened Wrappers
  import opened Models

  /** Two minutes, in ticks of one second. */
  const SESSION_TTL: nat := 120

  type Conn = nat

  datatype Side = Client | Agent

  /** `tcpRelaySessionState`: a session and its two connection slots. */
  datatype Row = Row(session: RelaySession, client: Option<Conn>, agent: Option<Conn>) {
    function Slot(side: Side): Option<Conn> {
      if side.Client? then client else agent
    }

    function Filled(side: Side, conn: Conn): Row {
      if side.Client? then this.(client := Some(conn)) else this.(agent := Some(conn))
    }

    function Conns(): set<Conn> {
      (if client.Some? then {client.value} else {}) + (if agent.Some? then {agent.value} else {})
    }
  }

  /** One call of `proxyTCPRelay`, with the session it was started for. */
  datatype Pair = Pair(id: string, client: Conn, agent: Conn) {
    function End(side: Side): Conn {
      if side.Client? then client else agent
    }
  }

  datatype State = State(
    sessions: map<string, Row>,
    wake: nat,              // the current wake channel
    channels: nat,          // how many channels were made; the next one is called `channels`
    closedWakes: seq<nat>,  // every `close(b.wake)`, in order
    closed: set<Conn>,      // connections the broker closed
    released: set<Conn>,    // connections the broker dropped without closing
    pairs: seq<Pair>)       // proxy pairs started, in order

  const INIT := State(map[], 0, 1, [], {}, {}, [])

  datatype Error =
    | NotFound | SourceMismatch | TargetMismatch | ClientAttached | AgentAttached
    | Expired | ClientRejected | AgentRejected

  function NewSession(id: string, source: Device, target: Device, port: int, now: nat): RelaySession {
    RelaySession(id, source.id, target.id, target.name, target.virtualIP, port, now + SESSION_TTL)
  }

  /** The device a session expects on a side. */
  function Expected(session: RelaySession, side: Side): string {
    if side.Client? then session.sourceDeviceId else session.targetDeviceId
  }

  predicate Dead(row: Row, now: nat) {
    now > row.session.expiresAt
  }

  function Cleanup(s: State, now: nat): State {
    s.(sessions := Survivors(s.sessions, now, {}),
       closed := s.closed + DeadConns(s.sessions, now))
  }

  /** The connections held by the sessions that a clean-up at `now` removes. */
  function DeadConns(sessions: map<string, Row>, now: nat): set<Conn> {
    set id, c | id in sessions && Dead(sessions[id], now) && c in sessions[id].Conns() :: c
  }

  /** What a clean-up that has not looked at the sessions in `todo` yet has left in the table. */
  function Survivors(sessions: map<string, Row>, now: nat, todo: set<string>): map<string, Row> {
    map id | id in sessions && (id in todo || !Dead(sessions[id], now)) :: sessions[id]
  }

  lemma CleanupOne(sessions: map<string, Row>, now: nat, todo: set<string>, id: string)
    requires id in todo && id in sessions
    ensures Dead(sessions[id], now) ==> Survivors(sessions, now, todo - {id}) == Survivors(sessions, now, todo) - {id}
    ensures !Dead(sessions[id], now) ==> Survivors(sessions, now, todo - {id}) == Survivors(sessions, now, todo)
    ensures Dead(sessions[id], now) ==>
              DeadConns(sessions - (todo - {id}), now) == DeadConns(sessions - todo, now) + sessions[id].Conns()
    ensures !Dead(sessions[id], now) ==> DeadConns(sessions - (todo - {id}), now) == DeadConns(sessions - todo, now)
  {
    var before, after := sessions - todo, sessions - (todo - {id});
    assert forall i :: i in before ==> i in after && before[i] == after[i];
    assert id in after && after[id] == sessions[id] && forall i :: i in after ==> i == id || i in before;
  }

  function Signal(s: State): State {
    s.(closedWakes := s.closedWakes + [s.wake], wake := s.channels, channels := s.channels + 1)
  }

  function Create(s: State, session: RelaySession, now: nat): State {
    Signal(Cleanup(s.(sessions := s.sessions[session.id := Row(session, None, None)]), now))
  }

  /** The sessions a device is told to serve; the list order is Go's map order, so it is a set. */
  function Pending(s: State, target: string): set<RelaySession> {
    PendingIn(s.sessions, target)
  }

  function PendingIn(sessions: map<string, Row>, target: string): set<RelaySession> {
    set id | id in sessions && Waiting(sessions[id], target) :: sessions[id].session
  }

  lemma PendingOne(sessions: map<string, Row>, target: string, todo: set<string>, id: string)
    requires id in todo && id in sessions
    ensures PendingIn(sessions - (todo - {id}), target) ==
            PendingIn(sessions - todo, target) + if Waiting(sessions[id], target) then {sessions[id].session} else {}
  {
    var before, after := sessions - todo, sessions - (todo - {id});
    assert forall i :: i in before ==> i in after && before[i] == after[i];
    assert id in after && after[id] == sessions[id] && forall i :: i in after ==> i == id || i in before;
  }

  predicate Waiting(row: Row, target: string) {
    row.session.targetDeviceId == target && row.agent.None?
  }

  function Check(s: State, id: string, device: string, side: Side): Option<Error> {
    if id !in s.sessions then Some(NotFound)
    else
      var row := s.sessions[id];
      if side.Client? && row.session.sourceDeviceId != device then Some(SourceMismatch)
      else if side.Agent? && row.session.targetDeviceId != device then Some(TargetMismatch)
      else if side.Client? && row.client.Some? then Some(ClientAttached)
      else if side.Agent? && row.agent.Some? then Some(AgentAttached)
      else None
  }

  /** `attach`, whose clock is read inside the lock. */
  function Attach(s: State, id: string, device: string, conn: Conn, side: Side, now: nat): (State, Option<Error>) {
    if id !in s.sessions then
      (s.(closed := s.closed + {conn}), Some(NotFound))
    else
      var row := s.sessions[id];
      if Dead(row, now) then
        (s.(sessions := s.sessions - {id}, closed := s.closed + {conn}, released := s.released + row.Conns()),
         Some(Expired))
      else if Expected(row.session, side) != device || row.Slot(side).Some? then
        (s.(closed := s.closed + {conn}), Some(if side.Client? then ClientRejected else AgentRejected))
      else
        var row' := row.Filled(side, conn);
        if row'.client.Some? && row'.agent.Some? then
          (s.(sessions := s.sessions - {id}, pairs := s.pairs + [Pair(id, row'.client.value, row'.agent.value)]), None)
        else
          (s.(sessions := s.sessions[id := row']), None)
  }

  /** `attach` repeats the checks of `validate` and adds the deadline: it accepts exactly what `validate`
      would accept at that moment, in time. */
  lemma AttachRevalidates(s: State, id: string, device: string, conn: Conn, side: Side, now: nat)
    ensures Attach(s, id, device, conn, side, now).1.None? <==>
            Check(s, id, device, side).None? && id in s.sessions && !Dead(s.sessions[id], now)
  {
  }

  /** Which error each refused request gets. */
  lemma RefusalsExactly(s: State, id: string, device: string, side: Side)
    ensures var err := Check(s, id, device, side);
            && (err == Some(NotFound) <==> id !in s.sessions)
            && (id in s.sessions ==>
                  var row := s.sessions[id];
                  && (err == Some(SourceMismatch) <==> side == Client && device != row.session.sourceDeviceId)
                  && (err == Some(TargetMismatch) <==> side == Agent && device != row.session.targetDeviceId)
                  && (err == Some(ClientAttached) <==>
                        side == Client && device == row.session.sourceDeviceId && row.client.Some?)
                  && (err == Some(AgentAttached) <==>
                        side == Agent && device == row.session.targetDeviceId && row.agent.Some?)
                  && err !in {Some(Expired), Some(ClientRejected), Some(AgentRejected)})
  {
  }

  lemma AttachRefusesExactly(s: State, id: string, device: string, conn: Conn, side: Side, now: nat)
    ensures var err := Attach(s, id, device, conn, side, now).1;
            && (err == Some(NotFound) <==> id !in s.sessions)
            && (err == Some(Expired) <==> id in s.sessions && now > s.sessions[id].session.expiresAt)
            && (err == Some(ClientRejected) <==>
                  id in s.sessions && now <= s.sessions[id].session.expiresAt && side == Client
                  && (device != s.sessions[id].session.sourceDeviceId || s.sessions[id].client.Some?))
            && (err == Some(AgentRejected) <==>
                  id in s.sessions && now <= s.sessions[id].session.expiresAt && side == Agent
                  && (device != s.sessions[id].session.targetDeviceId || s.sessions[id].agent.Some?))
            && (err.Some? ==> conn in Attach(s, id, device, conn, side, now).0.closed)
  {
  }

  /** One critical section. `now` is any natural: the clock of `Create`, `Poll` and `Validate` is
      read before the lock is taken, so it need not be monotone in lock order. */
  datatype Step =
    | CreateStep(id: string, source: Device, target: Device, port: int, now: nat)
    | PollStep(device: string, now: nat)
    | ValidateStep(id: string, device: string, side: Side, now: nat)
    | AttachStep(id: string, device: string, conn: Conn, side: Side, now: nat)
    | CaptureStep
  {
    /** Steps that run `cleanupLocked`. */
    predicate Cleans() {
      CreateStep? || PollStep? || ValidateStep?
    }

    function Session(): RelaySession
      requires CreateStep?
    {
      NewSession(id, source, target, port, now)
    }
  }

  function Apply(s: State, step: Step): State {
    match step
    case CreateStep(id, source, target, port, now) => Create(s, NewSession(id, source, target, port, now), now)
    case PollStep(_, now) => Cleanup(s, now)
    case ValidateStep(_, _, _, now) => Cleanup(s, now)
    case AttachStep(id, device, conn, side, now) => Attach(s, id, device, conn, side, now).0
    case CaptureStep => s
  }

  /** The state after a schedule of critical sections, from any state. */
  function RunFrom(s: State, steps: seq<Step>): State {
    if steps == [] then s
    else Apply(RunFrom(s, steps[..|steps| - 1]), steps[|steps| - 1])
  }

  /** A run of the broker: any interleaving of any number of requests, flattened to lock order. */
  function Run(steps: seq<Step>): State {
    RunFrom(INIT, steps)
  }

  lemma {:induction false} RunFromConcat(s: State, a: seq<Step>, b: seq<Step>)
    ensures RunFrom(s, a + b) == RunFrom(RunFrom(s, a), b)
  {
    if b == [] {
      assert a + b == a;
    } else {
      var b' := b[..|b| - 1];
      assert (a + b)[..|a + b| - 1] == a + b';
      RunFromConcat(s, a, b');
    }
  }
}
