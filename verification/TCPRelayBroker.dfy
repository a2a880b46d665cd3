/** The broker itself: a mutex-protected object whose methods are the critical sections of `Broker`.
    `closed`, `released`, `closedWakes` and `pairs` record what it does to connections and channels. */
module TCPRelayBroker {
  import opened Wrappers
  import opened Models
  import opened Broker

  /** What a long poll does up to its capture of the wake channel. */
  function PollOnce(target: string, now: nat, gap: seq<Step>): seq<Step> {
    [PollStep(target, now)] + gap + [CaptureStep]
  }

  lemma HandlerRuns(s: State, id: string, device: string, side: Side, now: nat, gap: seq<Step>, conn: Conn, later: nat)
    ensures var first, last := ValidateStep(id, device, side, now), AttachStep(id, device, conn, side, later);
            && RunFrom(s, [first]) == Cleanup(s, now)
            && RunFrom(s, [first] + gap) == RunFrom(Cleanup(s, now), gap)
            && RunFrom(s, [first] + gap + [last]) ==
               Attach(RunFrom(Cleanup(s, now), gap), id, device, conn, side, later).0
  {
    var first, last := ValidateStep(id, device, side, now), AttachStep(id, device, conn, side, later);
    assert [first][..0] == [];
    RunFromConcat(s, [first], gap);
    var all := [first] + gap + [last];
    assert all[..|all| - 1] == [first] + gap;
  }

  lemma PollTwice(s: State, target: string, now: nat, gap: seq<Step>, slept: seq<Step>, lag: seq<Step>, later: nat)
    ensures var capture := RunFrom(s, PollOnce(target, now, gap));
            && capture == RunFrom(Cleanup(s, now), gap)
            && RunFrom(s, PollOnce(target, now, gap) + slept + lag + [PollStep(target, later)])
               == Cleanup(RunFrom(RunFrom(capture, slept), lag), later)
  {
    var first := [PollStep(target, now)];
    assert first[..0] == [];
    RunFromConcat(s, first, gap);
    var h := PollOnce(target, now, gap);
    assert h[..|h| - 1] == first + gap;
    RunFromConcat(s, h, slept);
    RunFromConcat(s, h + slept, lag);
    var all := h + slept + lag + [PollStep(target, later)];
    assert all[..|all| - 1] == h + slept + lag;
  }

  /** `tcpRelaySessionState`: shared by reference from the session table and updated in place. */
  class SessionState {
    const session: RelaySession
    var client: Option<Conn>
    var agent: Option<Conn>

    constructor (session: RelaySession)
      ensures this.session == session && client == None && agent == None
    {
      this.session := session;
      client, agent := None, None;
    }

    function Row(): Row
      reads this
    {
      Broker.Row(session, client, agent)
    }
  }

  class TCPRelayBroker {
    var sessions: map<string, SessionState>
    var wake: nat
    var channels: nat
    var closedWakes: seq<nat>
    var closed: set<Conn>
    var pairs: seq<Pair>
    ghost var released: set<Conn>

    /** A session object is stored under its own session's id only, so no two ids share one. */
    ghost predicate Valid()
      reads `sessions
    {
      forall id :: id in sessions ==> sessions[id].session.id == id
    }

    ghost function Rows(): map<string, Row>
      reads `sessions, sessions.Values
    {
      map id | id in sessions :: sessions[id].Row()
    }

    ghost function State(): State
      reads this, sessions.Values
    {
      Broker.State(Rows(), wake, channels, closedWakes, closed, released, pairs)
    }

    constructor ()
      ensures Valid() && fresh(sessions.Values)
      ensures State() == Broker.INIT
    {
      sessions, wake, channels, closedWakes, closed, pairs, released := map[], 0, 1, [], {}, [], {};
    }

    /** The body of the clean-up loop. */
    method ExpireLocked(id: string, now: nat)
      requires id in sessions
      modifies `sessions, `closed
      ensures sessions == old(if Dead(sessions[id].Row(), now) then sessions - {id} else sessions)
      ensures Rows() == old(if Dead(Rows()[id], now) then Rows() - {id} else Rows())
      ensures closed == old(closed + if Dead(Rows()[id], now) then Rows()[id].Conns() else {})
    {
      var state := sessions[id];
      if now > state.session.expiresAt {
        if state.client.Some? {
          closed := closed + {state.client.value};
        }
        if state.agent.Some? {
          closed := closed + {state.agent.value};
        }
        sessions := sessions - {id};
      }
    }

    /** Deletes while looping, in an arbitrary order. */
    method CleanupLocked(now: nat)
      requires Valid()
      modifies `sessions, `closed
      ensures Valid() && sessions.Values <= old(sessions.Values)
      ensures State() == Broker.Cleanup(old(State()), now)
    {
      ghost var before := Rows();
      var todo := sessions.Keys;
      while todo != {}
        invariant forall id :: id in sessions ==> id in old(sessions) && sessions[id] == old(sessions[id])
        invariant todo <= sessions.Keys
        invariant Rows() == Survivors(before, now, todo)
        invariant closed == old(closed) + DeadConns(before - todo, now)
        decreases todo
      {
        var id :| id in todo;
        assert Rows()[id] == before[id];
        CleanupOne(before, now, todo, id);
        ExpireLocked(id, now);
        todo := todo - {id};
      }
      assert before - {} == before;
    }

    method SignalLocked()
      modifies this`wake, this`channels, this`closedWakes
      ensures State() == Signal(old(State()))
    {
      closedWakes := closedWakes + [wake];
      wake, channels := channels, channels + 1;
    }

    method Create(id: string, source: Device, target: Device, port: int, now: nat) returns (session: RelaySession)
      requires Valid()
      modifies this
      ensures Valid() && fresh(sessions.Values - old(sessions.Values))
      ensures session == NewSession(id, source, target, port, now)
      ensures session.id == id && session.targetPort == port && session.expiresAt == now + 120
      ensures session.sourceDeviceId == source.id && session.targetDeviceId == target.id
      ensures session.targetName == target.name && session.targetVirtualIP == target.virtualIP
      ensures State() == Broker.Create(old(State()), session, now)
    {
      ghost var before := State();
      session := RelaySession(id, source.id, target.id, target.name, target.virtualIP, port, now + SESSION_TTL);
      var state := new SessionState(session);
      sessions := sessions[id := state];
      assert State() == before.(sessions := before.sessions[id := Row(session, None, None)]);
      CleanupLocked(now);
      SignalLocked();
    }

    /** Lists in an arbitrary order, as ranging over a Go map does. */
    method ListWaiting(target: string) returns (out: seq<RelaySession>)
      requires Valid()
      ensures (set z | z in out) == PendingIn(Rows(), target)
      ensures forall i, j :: 0 <= i < j < |out| ==> out[i].id != out[j].id
    {
      out := [];
      ghost var rows := Rows();
      var todo := sessions.Keys;
      while todo != {}
        invariant todo <= sessions.Keys
        invariant forall i, j :: 0 <= i < j < |out| ==> out[i].id != out[j].id
        invariant forall z :: z in out ==> z.id !in todo
        invariant (set z | z in out) == PendingIn(rows - todo, target)
        decreases todo
      {
        var id :| id in todo;
        var state := sessions[id];
        assert rows[id] == state.Row();
        PendingOne(rows, target, todo, id);
        if state.session.targetDeviceId == target && state.agent.None? {
          out := out + [state.session];
        }
        todo := todo - {id};
      }
      assert rows - {} == rows;
    }

    method Pending(target: string, now: nat) returns (out: seq<RelaySession>)
      requires Valid()
      modifies this`sessions, this`closed
      ensures Valid() && sessions.Values <= old(sessions.Values)
      ensures State() == Broker.Cleanup(old(State()), now)
      ensures (set z | z in out) == Broker.Pending(State(), target)
      ensures forall i, j :: 0 <= i < j < |out| ==> out[i].id != out[j].id
    {
      CleanupLocked(now);
      out := ListWaiting(target);
    }

    method Validate(id: string, device: string, side: Side, now: nat) returns (err: Option<Error>)
      requires Valid()
      modifies this`sessions, this`closed
      ensures Valid() && sessions.Values <= old(sessions.Values)
      ensures State() == Broker.Cleanup(old(State()), now)
      ensures err == Check(State(), id, device, side)
    {
      CleanupLocked(now);
      if id !in sessions {
        return Some(NotFound);
      }
      var state := sessions[id];
      if side.Client? && state.session.sourceDeviceId != device {
        return Some(SourceMismatch);
      }
      if side.Agent? && state.session.targetDeviceId != device {
        return Some(TargetMismatch);
      }
      if side.Client? && state.client.Some? {
        return Some(ClientAttached);
      }
      if side.Agent? && state.agent.Some? {
        return Some(AgentAttached);
      }
      return None;
    }

    method Attach(id: string, device: string, conn: Conn, side: Side, now: nat) returns (err: Option<Error>)
      requires Valid()
      modifies this, sessions.Values
      ensures Valid() && sessions.Values <= old(sessions.Values)
      ensures (State(), err) == Broker.Attach(old(State()), id, device, conn, side, now)
    {
      ghost var before := State();
      if id !in sessions {
        closed := closed + {conn};
        return Some(NotFound);
      }
      var state := sessions[id];
      assert before.sessions[id] == state.Row();
      if now > state.session.expiresAt {
        released := released + state.Row().Conns();
        sessions := sessions - {id};
        closed := closed + {conn};
        assert Rows() == before.sessions - {id};
        return Some(Expired);
      }
      if side.Client? {
        if state.session.sourceDeviceId != device || state.client.Some? {
          closed := closed + {conn};
          assert Rows() == before.sessions;
          return Some(ClientRejected);
        }
        state.client := Some(conn);
      } else {
        if state.session.targetDeviceId != device || state.agent.Some? {
          closed := closed + {conn};
          assert Rows() == before.sessions;
          return Some(AgentRejected);
        }
        state.agent := Some(conn);
      }
      assert Rows() == before.sessions[id := before.sessions[id].Filled(side, conn)];
      if state.client.Some? && state.agent.Some? {
        sessions := sessions - {id};
        pairs := pairs + [Pair(id, state.client.value, state.agent.value)];
        assert Rows() == before.sessions - {id};
      }
      return None;
    }

    /** Performs one critical section of some request. */
    method Perform(step: Step)
      requires Valid()
      modifies this, sessions.Values
      ensures Valid() && fresh(sessions.Values - old(sessions.Values))
      ensures State() == Apply(old(State()), step)
    {
      match step {
        case CreateStep(id, source, target, port, now) => var _ := Create(id, source, target, port, now);
        case PollStep(device, now) => var _ := Pending(device, now);
        case ValidateStep(id, device, side, now) => var _ := Validate(id, device, side, now);
        case AttachStep(id, device, conn, side, now) => var _ := Attach(id, device, conn, side, now);
        case CaptureStep =>
      }
    }

    /** What other requests do while the caller does not hold the lock. */
    method Interleave(steps: seq<Step>)
      requires Valid()
      modifies this, sessions.Values
      ensures Valid() && fresh(sessions.Values - old(sessions.Values))
      ensures State() == RunFrom(old(State()), steps)
    {
      for i := 0 to |steps|
        invariant Valid() && fresh(sessions.Values - old(sessions.Values))
        invariant State() == RunFrom(old(State()), steps[..i])
      {
        Perform(steps[i]);
        assert steps[..i + 1][..i] == steps[..i];
      }
      assert steps[..|steps|] == steps;
    }

    /** The select of `PendingWait`: it goes on as soon as the captured channel is closed, or the timer or the
        context fires, which they do after `timer` steps of others. `waited` is how many it slept through. */
    method Sleep(channel: nat, sleep: seq<Step>, timer: nat) returns (waited: nat)
      requires Valid() && timer <= |sleep|
      modifies this, sessions.Values
      ensures Valid() && fresh(sessions.Values - old(sessions.Values))
      ensures waited <= timer && State() == RunFrom(old(State()), sleep[..waited])
      ensures waited < timer ==> channel in RunFrom(old(State()), sleep[..waited]).closedWakes
      ensures forall n :: 0 <= n < waited ==> channel !in RunFrom(old(State()), sleep[..n]).closedWakes
    {
      waited := 0;
      while waited < timer && channel !in closedWakes
        invariant Valid() && fresh(sessions.Values - old(sessions.Values))
        invariant waited <= timer && State() == RunFrom(old(State()), sleep[..waited])
        invariant forall n :: 0 <= n < waited ==> channel !in RunFrom(old(State()), sleep[..n]).closedWakes
      {
        Perform(sleep[waited]);
        assert sleep[..waited + 1][..waited] == sleep[..waited];
        waited := waited + 1;
      }
    }

    /** The rest of `PendingWait` once its first look found nothing: capture the channel, sleep, look again.
        `gap` is what others do before the capture, `lag` what they do before the second look. */
    method WaitAgain(target: string, gap: seq<Step>, sleep: seq<Step>, timer: nat, lag: seq<Step>, later: nat)
      returns (out: seq<RelaySession>, captured: nat, waited: nat)
      requires Valid() && timer <= |sleep|
      modifies this, sessions.Values
      ensures Valid() && fresh(sessions.Values - old(sessions.Values))
      ensures captured == RunFrom(old(State()), gap).wake && waited <= timer
      ensures waited < timer ==> captured in RunFrom(RunFrom(old(State()), gap), sleep[..waited]).closedWakes
      ensures forall n :: 0 <= n < waited ==> captured !in RunFrom(RunFrom(old(State()), gap), sleep[..n]).closedWakes
      ensures State() == Broker.Cleanup(RunFrom(RunFrom(RunFrom(old(State()), gap), sleep[..waited]), lag), later)
      ensures (set z | z in out) == Broker.Pending(State(), target)
    {
      Interleave(gap);
      captured := wake;
      waited := Sleep(captured, sleep, timer);
      Interleave(lag);
      out := Pending(target, later);
    }

    /** `PendingWait` takes the lock three times, with any steps of others between. */
    method PendingWait(target: string, wait: int, now: nat, gap: seq<Step>, sleep: seq<Step>, timer: nat,
                       lag: seq<Step>, later: nat)
      returns (out: seq<RelaySession>, ghost history: seq<Step>, captured: Option<nat>, waited: nat)
      requires Valid() && timer <= |sleep|
      modifies this, sessions.Values
      ensures Valid() && fresh(sessions.Values - old(sessions.Values))
      ensures State() == RunFrom(old(State()), history)
      ensures (set z | z in out) == Broker.Pending(State(), target) && waited <= timer
      ensures history == if captured.None? then [PollStep(target, now)]
                         else PollOnce(target, now, gap) + sleep[..waited] + lag + [PollStep(target, later)]
      ensures captured.None? <==> wait <= 0 || Broker.Pending(Broker.Cleanup(old(State()), now), target) != {}
      ensures captured.Some? ==>
                var capture := RunFrom(old(State()), PollOnce(target, now, gap));
                && captured.value == capture.wake
                && (waited < timer ==> captured.value in RunFrom(capture, sleep[..waited]).closedWakes)
                && forall n :: 0 <= n < waited ==> captured.value !in RunFrom(capture, sleep[..n]).closedWakes
    {
      ghost var start := State();
      out := Pending(target, now);
      history, waited, captured := [PollStep(target, now)], 0, None;
      assert RunFrom(start, history) == State() by { assert history[..0] == []; }
      if |out| > 0 || wait <= 0 {
        if |out| > 0 {
          assert out[0] in Broker.Pending(State(), target);
        }
        return;
      }
      var channel;
      out, channel, waited := WaitAgain(target, gap, sleep, timer, lag, later);
      captured := Some(channel);
      PollTwice(start, target, now, gap, sleep[..waited], lag, later);
      history := PollOnce(target, now, gap) + sleep[..waited] + lag + [PollStep(target, later)];
    }

    /** The part of a stream handler behind its validation: hijack and attach, after some steps of others. */
    method AttachLater(id: string, device: string, side: Side, gap: seq<Step>, hijacked: Option<Conn>, later: nat)
      returns (err: Option<Error>)
      requires Valid()
      modifies this, sessions.Values
      ensures Valid() && fresh(sessions.Values - old(sessions.Values))
      ensures hijacked.None? ==> err == None && State() == RunFrom(old(State()), gap)
      ensures hijacked.Some? ==>
                (State(), err) == Broker.Attach(RunFrom(old(State()), gap), id, device, hijacked.value, side, later)
    {
      Interleave(gap);
      if hijacked.None? {
        return None;
      }
      err := Attach(id, device, hijacked.value, side, later);
    }

    /** A stream handler after authentication: validate, hijack, attach, with others' steps in between. A
        connection exists from the hijack on and is given to `attach` exactly once. */
    method HandleStream(id: string, device: string, side: Side, now: nat, gap: seq<Step>, hijacked: Option<Conn>,
                        later: nat)
      returns (err: Option<Error>, ghost history: seq<Step>)
      requires Valid()
      modifies this, sessions.Values
      ensures Valid() && fresh(sessions.Values - old(sessions.Values))
      ensures State() == RunFrom(old(State()), history)
      ensures var validated := [ValidateStep(id, device, side, now)];
              var refused := Check(RunFrom(old(State()), validated), id, device, side);
              if refused.Some? then err == refused && history == validated
              else if hijacked.None? then err == None && history == validated + gap
              else err == Broker.Attach(RunFrom(old(State()), validated + gap), id, device, hijacked.value, side,
                                        later).1
                   && history == validated + gap + [AttachStep(id, device, hijacked.value, side, later)]
    {
      ghost var start := State();
      history := [ValidateStep(id, device, side, now)];
      HandlerRuns(start, id, device, side, now, gap, if hijacked.Some? then hijacked.value else 0, later);
      err := Validate(id, device, side, now);
      if err.Some? {
        return;
      }
      err := AttachLater(id, device, side, gap, hijacked, later);
      history := history + gap;
      if hijacked.Some? {
        history := history + [AttachStep(id, device, hijacked.value, side, later)];
      }
    }
  }
}
